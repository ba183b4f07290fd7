/** Exactly when a run keeps time: the guards of the clock's subtraction and of the firing entries, iteration by iteration. */
module SchedulerTiming {
  import opened Wrappers
  import opened Graph
  import opened Scheduler
  import opened SchedulerClock

  // ---------- the clock ----------

  /** The chosen task has not run past its time yet, so what is missing of it does not wrap. */
  predicate OnTime(r: Resource, next: Option<nat>, global: nat)
    requires next.Some? ==> next.value < |r.tasks|
  {
    next.Some? && global - r.clock <= r.tasks[next.value].time
  }

  /** Some chosen task is on time, or none is chosen. */
  ghost predicate InTime(s: Sim) {
    var q, c := NextAvailable(s.qpu.tasks, s.deps), NextAvailable(s.cpu.tasks, s.deps);
    (q.None? && c.None?) || OnTime(s.qpu, q, s.global) || OnTime(s.cpu, c, s.global)
  }

  /** How far the chosen task has run past its time. */
  function Overdue(r: Resource, n: nat, global: nat): int
    requires n < |r.tasks|
  {
    global - r.clock - r.tasks[n].time
  }

  lemma MissingWraps(r: Resource, n: nat, global: nat)
    requires n < |r.tasks| && r.clock <= global < TIME_RANGE && Overdue(r, n, global) > 0
    ensures Missing(r, n, global) == TIME_RANGE - Overdue(r, n, global)
  {
    NothingWraps(global - r.clock);
    WSame(-Overdue(r, n, global), TIME_RANGE - Overdue(r, n, global), -1);
    NothingWraps(TIME_RANGE - Overdue(r, n, global));
  }

  lemma Back(global: nat, over: nat)
    requires 0 < over <= global < TIME_RANGE
    ensures W(global + (TIME_RANGE - over)) == global - over
  {
    WSame(global + (TIME_RANGE - over), global - over, 1);
    NothingWraps(global - over);
  }

  /** What is missing of a task on time fits below the wrapped values; what is missing of an overdue one does not. */
  lemma MissingOf(r: Resource, n: nat, global: nat, total: nat)
    requires n < |r.tasks| && r.clock <= global && r.tasks[n].time < TIME_RANGE && global + Total(r.tasks) <= total < TIME_RANGE
    ensures global - r.clock <= r.tasks[n].time ==>
              Missing(r, n, global) == r.tasks[n].time - (global - r.clock) && Missing(r, n, global) <= r.tasks[n].time
    ensures global - r.clock > r.tasks[n].time ==> Missing(r, n, global) == TIME_RANGE - Overdue(r, n, global)
    ensures r.tasks[n].time <= total - global
  {
    TotalAt(r.tasks, n);
    if global - r.clock <= r.tasks[n].time {
      MissingIsExact(r, n, global);
    } else {
      MissingWraps(r, n, global);
    }
  }

  /** The step of the clock: forward to the end of a task on time, or back when every chosen task is overdue. */
  lemma AdvanceIs(s: Sim, total: nat) returns (inc: nat)
    requires TimesFit(s) && Bounded(s, total) && s.cpu.clock <= s.global && s.qpu.clock <= s.global
    ensures InTime(s) ==> Advance(s).global == s.global + inc <= total
    ensures var q, c := NextAvailable(s.qpu.tasks, s.deps), NextAvailable(s.cpu.tasks, s.deps);
            InTime(s) && (q.Some? || c.Some?) ==>
              || (q.Some? && s.global + inc == s.qpu.clock + s.qpu.tasks[q.value].time && inc <= s.qpu.tasks[q.value].time)
              || (c.Some? && s.global + inc == s.cpu.clock + s.cpu.tasks[c.value].time && inc <= s.cpu.tasks[c.value].time)
    ensures InTime(s) && NextAvailable(s.qpu.tasks, s.deps).None? && NextAvailable(s.cpu.tasks, s.deps).None? ==> inc == 0
    ensures !InTime(s) ==> Advance(s).global < s.global
  {
    var q := NextAvailable(s.qpu.tasks, s.deps);
    var c := NextAvailable(s.cpu.tasks, s.deps);
    inc := NextTimeIncrement(s.cpu, s.qpu, c, q, s.global);
    if q.Some? {
      MissingOf(s.qpu, q.value, s.global, total);
    }
    if c.Some? {
      MissingOf(s.cpu, c.value, s.global, total);
    }
    if InTime(s) {
      NothingWraps(s.global + inc);
    } else {
      Back(s.global, TIME_RANGE - inc);
    }
  }

  /** The global clock does not fall in an iteration exactly when some chosen task is on time: the subtraction that
      computes what is missing of it does not wrap. */
  lemma AdvanceRises(s: Sim, total: nat)
    requires TimesFit(s) && Bounded(s, total) && s.cpu.clock <= s.global && s.qpu.clock <= s.global
    ensures s.global <= Advance(s).global <==> InTime(s)
  {
    var inc := AdvanceIs(s, total);
  }

  // ---------- what is logged ----------

  /** Every task of the log starts after the earlier ones of its resource end. */
  ghost predicate Apart(log: seq<Event>) {
    forall i, j :: 0 <= j < i < |log| && log[j].onQpu == log[i].onQpu ==> log[j].finish <= StartOf(log[i])
  }

  predicate DependsOn(deps0: Dependences, e: Event, d: Event) {
    e.task.name in deps0 && d.task.name in deps0[e.task.name]
  }

  /** Every task of the log starts after the earlier ones it depends on end. */
  ghost predicate AfterDependences(deps0: Dependences, log: seq<Event>) {
    forall i, j :: 0 <= j < i < |log| && DependsOn(deps0, log[i], log[j]) ==> log[j].finish <= StartOf(log[i])
  }

  /** The chosen task fires although it was released after its resource's clock, and too late for its time. */
  ghost predicate Premature(s: Sim, deps0: Dependences, onQpu: bool, next: Option<nat>)
    requires next.Some? ==> next.value < |On(s, onQpu).tasks|
  {
    Fired(s, onQpu, next)
    && var e := Event(On(s, onQpu).tasks[next.value], onQpu, s.global);
       exists i :: 0 <= i < |s.log| && DependsOn(deps0, e, s.log[i])
                   && On(s, onQpu).clock < s.log[i].finish && s.global - e.task.time < s.log[i].finish
  }

  ghost predicate NonePremature(s: Sim, deps0: Dependences) {
    && !Premature(Advance(s), deps0, true, NextAvailable(s.qpu.tasks, s.deps))
    && !Premature(Advance(s), deps0, false, NextAvailable(s.cpu.tasks, s.deps))
  }

  /** Clocks are not ahead, and what is logged ended by the clock of its resource and apart. */
  ghost predicate Kept(s: Sim) {
    EndsBy(s.log, s.cpu.clock, s.qpu.clock, s.global) && Apart(s.log) && s.global < TIME_RANGE
  }

  /** Serving a resource keeps what it logs apart, whatever displaced whatever. */
  lemma ServedKept(s: Sim, onQpu: bool, next: Option<nat>)
    requires Kept(s) && (next.Some? ==> next.value < |On(s, onQpu).tasks|)
    ensures Kept(ScheduleIfReady(s, onQpu, next))
  {
    if next.Some? {
      NothingWraps(s.global - On(s, onQpu).clock);
    }
  }

  lemma AfterOneMore(deps0: Dependences, log: seq<Event>, e: Event)
    ensures AfterDependences(deps0, log + [e]) <==>
              AfterDependences(deps0, log) && forall j :: 0 <= j < |log| && DependsOn(deps0, e, log[j]) ==> log[j].finish <= StartOf(e)
  {
    var more := log + [e];
    assert more[|log|] == e && forall i :: 0 <= i < |log| ==> more[i] == log[i];
  }

  /** Serving a resource logs a start before the end of a dependence exactly when the task is premature. */
  lemma ServedAfter(s: Sim, deps0: Dependences, onQpu: bool, next: Option<nat>)
    requires Kept(s) && (next.Some? ==> next.value < |On(s, onQpu).tasks|)
    ensures AfterDependences(deps0, ScheduleIfReady(s, onQpu, next).log)
       <==> AfterDependences(deps0, s.log) && !Premature(s, deps0, onQpu, next)
  {
    if Fired(s, onQpu, next) {
      NothingWraps(s.global - On(s, onQpu).clock);
      var e := Event(On(s, onQpu).tasks[next.value], onQpu, s.global);
      AfterOneMore(deps0, s.log, e);
    }
  }

  /** The task chosen for the host does not depend on the one just served beside it. */
  lemma PrematureBeside(s: Sim, deps0: Dependences, q: Option<nat>, c: Option<nat>)
    requires Keyed(s, deps0) && (q.Some? ==> q.value < |s.qpu.tasks|)
    requires c.Some? ==> c.value < |s.cpu.tasks| && IsTaskAvailable(s.cpu.tasks[c.value].name, s.deps)
    ensures Premature(ScheduleIfReady(s, true, q), deps0, false, c) <==> Premature(s, deps0, false, c)
  {
    var u := ScheduleIfReady(s, true, q);
    ServedLog(s, true, q);
    LoggedIsOther(s, deps0, true, q, c);
    if c.Some? {
      WaitingIsKnown(s, false, c.value);
      assert forall i :: 0 <= i < |s.log| ==> u.log[i] == s.log[i];
    }
  }

  // ---------- one iteration ----------

  lemma StepKept(s: Sim)
    requires Kept(s) && Advance(s).global < TIME_RANGE && s.global <= Advance(s).global
    ensures Kept(Step(s))
  {
    var t := Advance(s);
    var q, c := NextAvailable(s.qpu.tasks, s.deps), NextAvailable(s.cpu.tasks, s.deps);
    ServedKept(t, true, q);
    ServedKept(ScheduleIfReady(t, true, q), false, c);
  }

  lemma StepAfter(s: Sim, deps0: Dependences)
    requires Keyed(s, deps0) && Kept(s) && Advance(s).global < TIME_RANGE && s.global <= Advance(s).global
    ensures AfterDependences(deps0, Step(s).log) <==> AfterDependences(deps0, s.log) && NonePremature(s, deps0)
  {
    var t := Advance(s);
    var q, c := NextAvailable(s.qpu.tasks, s.deps), NextAvailable(s.cpu.tasks, s.deps);
    assert Names(t) == Names(s);
    ServedKept(t, true, q);
    ServedAfter(t, deps0, true, q);
    ServedAfter(ScheduleIfReady(t, true, q), deps0, false, c);
    PrematureBeside(t, deps0, q, c);
  }

  /** An iteration in time keeps the clock and the work left within the total. */
  lemma StepStaysBounded(s: Sim, total: nat)
    requires TimesFit(s) && Bounded(s, total) && s.cpu.clock <= s.global && s.qpu.clock <= s.global && InTime(s)
    ensures Bounded(Step(s), total)
  {
    var inc := AdvanceIs(s, total);
    var t := Advance(s);
    var q, c := NextAvailable(s.qpu.tasks, s.deps), NextAvailable(s.cpu.tasks, s.deps);
    NothingWraps(t.global - s.qpu.clock);
    NothingWraps(t.global - s.cpu.clock);
    ServedTotal(t, true, q);
    ServedTotal(ScheduleIfReady(t, true, q), false, c);
  }

  // ---------- whole runs ----------

  /** In every iteration of the run some chosen task is on time. */
  ghost predicate AlwaysInTime(s: Sim, deps0: Dependences)
    requires Sane(s, deps0)
    decreases Waiting(s)
  {
    if Waiting(s) == 0 then true
    else
      NextRound(s, deps0);
      InTime(s) && AlwaysInTime(Step(s), deps0)
  }

  /** In every iteration of the run some chosen task is on time, and none fires prematurely. */
  ghost predicate Punctual(s: Sim, deps0: Dependences)
    requires Sane(s, deps0)
    decreases Waiting(s)
  {
    if Waiting(s) == 0 then true
    else
      NextRound(s, deps0);
      InTime(s) && NonePremature(s, deps0) && Punctual(Step(s), deps0)
  }

  lemma ServedLogGrows(s: Sim, onQpu: bool, next: Option<nat>)
    requires next.Some? ==> next.value < |On(s, onQpu).tasks|
    ensures s.log <= ScheduleIfReady(s, onQpu, next).log
  {
  }

  lemma {:induction false} RunLogGrows(s: Sim, deps0: Dependences)
    requires Sane(s, deps0)
    ensures s.log <= Run(s, deps0).log
    decreases Waiting(s)
  {
    if Waiting(s) > 0 {
      NextRound(s, deps0);
      var t := Advance(s);
      var q, c := NextAvailable(s.qpu.tasks, s.deps), NextAvailable(s.cpu.tasks, s.deps);
      ServedLogGrows(t, true, q);
      ServedLogGrows(ScheduleIfReady(t, true, q), false, c);
      RunLogGrows(Step(s), deps0);
    }
  }

  lemma PrefixAfter(deps0: Dependences, log: seq<Event>, more: seq<Event>)
    requires log <= more
    ensures AfterDependences(deps0, more) ==> AfterDependences(deps0, log)
  {
  }

  /** An iteration in time keeps what the next one needs; any other lets the clock fall. */
  lemma InTimeStep(s: Sim, deps0: Dependences, total: nat)
    requires Keyed(s, deps0) && TimesFit(s) && Kept(s) && Bounded(s, total)
    ensures s.global <= Step(s).global <==> InTime(s)
    ensures InTime(s) ==> Kept(Step(s)) && Bounded(Step(s), total)
    ensures InTime(s) ==> (AfterDependences(deps0, Step(s).log) <==> AfterDependences(deps0, s.log) && NonePremature(s, deps0))
  {
    AdvanceRises(s, total);
    if InTime(s) {
      var inc := AdvanceIs(s, total);
      StepKept(s);
      StepStaysBounded(s, total);
      StepAfter(s, deps0);
    }
  }

  /** The global clock never decreases on a run exactly when some chosen task is on time in every iteration; then no two
      tasks of one resource overlap, displaced or not. */
  lemma {:induction false} RisingExactly(s: Sim, deps0: Dependences, total: nat)
    requires Sane(s, deps0) && Kept(s) && Bounded(s, total)
    ensures Rising(s, deps0) <==> AlwaysInTime(s, deps0)
    ensures Rising(s, deps0) ==> Apart(Run(s, deps0).log)
    decreases Waiting(s)
  {
    if Waiting(s) > 0 {
      NextRound(s, deps0);
      InTimeStep(s, deps0, total);
      if InTime(s) {
        RisingExactly(Step(s), deps0, total);
      }
    }
  }

  /** On a run whose clock never decreases, every task starts after its dependences end exactly when none fires
      prematurely in any iteration. */
  lemma {:induction false} PunctualExactly(s: Sim, deps0: Dependences, total: nat)
    requires Sane(s, deps0) && Kept(s) && Bounded(s, total) && AfterDependences(deps0, s.log)
    ensures Rising(s, deps0) && AfterDependences(deps0, Run(s, deps0).log) <==> Punctual(s, deps0)
    decreases Waiting(s)
  {
    if Waiting(s) > 0 {
      NextRound(s, deps0);
      InTimeStep(s, deps0, total);
      if InTime(s) {
        if NonePremature(s, deps0) {
          PunctualExactly(Step(s), deps0, total);
        } else {
          RunLogGrows(Step(s), deps0);
          PrefixAfter(deps0, Step(s).log, Run(s, deps0).log);
        }
      }
    }
  }

  /** A linear log without starts before dependences, apart on each resource, is a timeline, and the other way round. */
  lemma TimelineExactly(log: seq<Event>, deps0: Dependences)
    requires Apart(log) && Distinct(LogNames(log))
    requires forall i, d :: 0 <= i < |log| && log[i].task.name in deps0 && d in deps0[log[i].task.name] && d in deps0 ==>
               d in LogNames(log[..i])
    requires forall i :: 0 <= i < |log| ==> log[i].task.name in deps0
    ensures Timeline(log, deps0) <==> AfterDependences(deps0, log)
  {
    if AfterDependences(deps0, log) {
      forall i, j | 0 <= i < |log| && 0 <= j < |log| && i != j
        ensures log[j].task.name in deps0[log[i].task.name] ==> log[j].finish <= StartOf(log[i])
        ensures log[i].onQpu == log[j].onQpu ==> log[j].finish <= StartOf(log[i]) || log[i].finish <= StartOf(log[j])
      {
        if log[j].task.name in deps0[log[i].task.name] {
          LoggedBefore(log, i, j);
          assert DependsOn(deps0, log[i], log[j]);
        }
      }
    }
    if Timeline(log, deps0) {
      forall i, j | 0 <= j < i < |log| && DependsOn(deps0, log[i], log[j]) ensures log[j].finish <= StartOf(log[i]) {
      }
    }
  }

  /** The exact answer for lists and dependences that agree and times that sum to a 64-bit value. The clock never
      decreases exactly when in every iteration the subtraction of some chosen task does not wrap. Tasks of one resource
      then never overlap; and all tasks start after their dependences end exactly when, besides, no task fires that was
      released after its resource's clock and less than its time before. */
  lemma KeepsTimeExactly(cpu: seq<Task>, qpu: seq<Task>, deps: Dependences)
    requires Accepted(cpu, qpu, deps) && Total(cpu) + Total(qpu) < TIME_RANGE
    ensures var s := Start(cpu, qpu, deps);
            && Sane(s, deps)
            && (Rising(s, deps) <==> AlwaysInTime(s, deps))
            && (Rising(s, deps) ==> Apart(Run(s, deps).log))
            && (Rising(s, deps) && Timeline(Run(s, deps).log, deps) <==> Punctual(s, deps))
  {
    var s := Start(cpu, qpu, deps);
    AcceptedStart(cpu, qpu, deps);
    RisingExactly(s, deps, Total(cpu) + Total(qpu));
    PunctualExactly(s, deps, Total(cpu) + Total(qpu));
    RunIsLinear(s, deps);
    var log := Run(s, deps).log;
    forall i | 0 <= i < |log| ensures log[i].task.name in deps {
      assert LogNames(log)[i] in LogNames(log);
    }
    if Rising(s, deps) {
      TimelineExactly(log, deps);
    }
  }
}
