/** An invariant that keeps the clocks of the simulation in step with dependences and resources, and the displacement that
    breaks it. That nothing is displaced is enough for the clocks to be right; `SchedulerTiming` says exactly when they are. */
module SchedulerClock {
  import opened Wrappers
  import opened Graph
  import opened Scheduler

  /** All logged dependences of `name` ended by `now`. */
  ghost predicate Since(deps0: Dependences, log: seq<Event>, name: nat, now: int) {
    name in deps0 ==> forall i :: 0 <= i < |log| && log[i].task.name in deps0[name] ==> log[i].finish <= now
  }

  /** The task the resource is timing fits the time that has passed on it, and could start when its clock stopped. */
  ghost predicate Ready(r: Resource, deps: Dependences, deps0: Dependences, log: seq<Event>, global: nat) {
    r.clock <= global
    && var next := NextAvailable(r.tasks, deps);
       next.Some? ==> global - r.clock <= r.tasks[next.value].time && Since(deps0, log, r.tasks[next.value].name, r.clock)
  }

  ghost predicate EndsBy(log: seq<Event>, cpuClock: nat, qpuClock: nat, global: nat) {
    && cpuClock <= global && qpuClock <= global
    && forall i :: 0 <= i < |log| ==> log[i].finish <= if log[i].onQpu then qpuClock else cpuClock
  }

  function StartOf(e: Event): int {
    e.finish - e.task.time
  }

  /** A later event starts after the earlier ones it depends on and after the earlier ones of its resource. */
  ghost predicate StartsAfter(deps0: Dependences, earlier: seq<Event>, e: Event) {
    && 0 <= StartOf(e) && Since(deps0, earlier, e.task.name, StartOf(e))
    && forall i :: 0 <= i < |earlier| && earlier[i].onQpu == e.onQpu ==> earlier[i].finish <= StartOf(e)
  }

  ghost predicate Timed(deps0: Dependences, log: seq<Event>) {
    forall i :: 0 <= i < |log| ==> StartsAfter(deps0, log[..i], log[i])
  }

  function Total(tasks: seq<Task>): nat {
    if tasks == [] then 0 else tasks[0].time + Total(tasks[1..])
  }

  lemma {:induction false} TotalAt(tasks: seq<Task>, n: nat)
    requires n < |tasks|
    ensures Total(tasks) == tasks[n].time + Total(RemoveAt(tasks, n))
  {
    if n == 0 {
      assert RemoveAt(tasks, 0) == tasks[1..];
    } else {
      TotalAt(tasks[1..], n - 1);
      assert RemoveAt(tasks, n)[1..] == RemoveAt(tasks[1..], n - 1);
    }
  }

  /** The clock never runs past the work done, and the work left fits in 64 bits with it. */
  ghost predicate Bounded(s: Sim, total: nat) {
    s.global + Total(s.cpu.tasks) + Total(s.qpu.tasks) <= total < TIME_RANGE
  }

  /** The invariant: both resources are ready, and what is logged ended by their clocks and started in time. */
  ghost predicate Trusted(s: Sim, deps0: Dependences) {
    && Ready(s.cpu, s.deps, deps0, s.log, s.global) && Ready(s.qpu, s.deps, deps0, s.log, s.global)
    && EndsBy(s.log, s.cpu.clock, s.qpu.clock, s.global) && Timed(deps0, s.log)
  }

  /** A task that a resource was timing, and that was not scheduled, is timed again; or no time had passed on it. */
  ghost predicate Undisplaced(before: Resource, deps: Dependences, after: Resource, deps': Dependences, global': nat) {
    NextAvailable(before.tasks, deps).None? || |after.tasks| < |before.tasks|
    || NextAvailable(after.tasks, deps') == NextAvailable(before.tasks, deps)
    || after.clock == global'
  }

  ghost predicate Calm(s: Sim) {
    && Undisplaced(s.cpu, s.deps, Step(s).cpu, Step(s).deps, Step(s).global)
    && Undisplaced(s.qpu, s.deps, Step(s).qpu, Step(s).deps, Step(s).global)
  }

  // ---------- one resource served ----------

  /** What is known of a resource that is about to be served with the task `next` chosen before. */
  ghost predicate Chosen(s: Sim, deps0: Dependences, onQpu: bool, next: Option<nat>) {
    var r := On(s, onQpu);
    r.clock <= s.global < TIME_RANGE
    && (next.Some? ==> next.value < |r.tasks| && s.global - r.clock <= r.tasks[next.value].time
                       && Since(deps0, s.log, r.tasks[next.value].name, r.clock))
  }

  predicate Fired(s: Sim, onQpu: bool, next: Option<nat>)
    requires next.Some? ==> next.value < |On(s, onQpu).tasks|
  {
    next.Some? && W(s.global - On(s, onQpu).clock) >= On(s, onQpu).tasks[next.value].time
  }

  lemma TimedGrows(deps0: Dependences, log: seq<Event>, e: Event)
    requires Timed(deps0, log) && StartsAfter(deps0, log, e)
    ensures Timed(deps0, log + [e])
  {
    var more := log + [e];
    forall i | 0 <= i < |more| ensures StartsAfter(deps0, more[..i], more[i]) {
      assert more[..i] == log[..i];
      if i == |log| {
        assert more[..i] == log;
      } else {
        assert more[i] == log[i];
      }
    }
  }

  /** A served task ends exactly its time after the clock of its resource. */
  lemma ServedInTime(s: Sim, deps0: Dependences, onQpu: bool, next: Option<nat>)
    requires Chosen(s, deps0, onQpu, next)
    requires EndsBy(s.log, s.cpu.clock, s.qpu.clock, s.global) && Timed(deps0, s.log)
    ensures var t := ScheduleIfReady(s, onQpu, next);
            EndsBy(t.log, t.cpu.clock, t.qpu.clock, t.global) && Timed(deps0, t.log)
  {
    if Fired(s, onQpu, next) {
      var r := On(s, onQpu);
      var e := Event(r.tasks[next.value], onQpu, s.global);
      assert StartOf(e) == r.clock;
      TimedGrows(deps0, s.log, e);
    }
  }

  /** A task that was available does not depend on the one scheduled beside it. */
  lemma SinceGrows(deps: Dependences, deps0: Dependences, log: seq<Event>, name: nat, now: int, e: Event)
    requires Since(deps0, log, name, now) && IsTaskAvailable(name, deps) && e.task.name in deps
    requires name in deps0 && deps0[name] == deps[name]
    ensures Since(deps0, log + [e], name, now)
  {
  }

  // ---------- one iteration ----------

  lemma NothingWraps(x: int)
    requires 0 <= x < TIME_RANGE
    ensures W(x) == x
  {
  }

  lemma MissingIsExact(r: Resource, n: nat, global: nat)
    requires n < |r.tasks| && r.clock <= global < TIME_RANGE
    requires global - r.clock <= r.tasks[n].time < TIME_RANGE
    ensures Missing(r, n, global) == r.tasks[n].time - (global - r.clock)
    ensures Missing(r, n, global) <= Total(r.tasks)
  {
    NothingWraps(global - r.clock);
    NothingWraps(r.tasks[n].time - (global - r.clock));
    TotalAt(r.tasks, n);
  }

  /** With the times bounded, the clock advances by the smaller missing time and not past either task. */
  lemma Increment(s: Sim, deps0: Dependences, total: nat) returns (inc: nat)
    requires TimesFit(s) && Trusted(s, deps0) && Bounded(s, total)
    ensures Advance(s) == s.(global := s.global + inc) && s.global + inc < TIME_RANGE
    ensures var q := NextAvailable(s.qpu.tasks, s.deps); q.Some? ==> s.global + inc <= s.qpu.clock + s.qpu.tasks[q.value].time
    ensures var c := NextAvailable(s.cpu.tasks, s.deps); c.Some? ==> s.global + inc <= s.cpu.clock + s.cpu.tasks[c.value].time
    ensures var q, c := NextAvailable(s.qpu.tasks, s.deps), NextAvailable(s.cpu.tasks, s.deps);
            (q.None? && c.None?) || (q.Some? && s.global + inc == s.qpu.clock + s.qpu.tasks[q.value].time)
            || (c.Some? && s.global + inc == s.cpu.clock + s.cpu.tasks[c.value].time)
  {
    var q := NextAvailable(s.qpu.tasks, s.deps);
    var c := NextAvailable(s.cpu.tasks, s.deps);
    if q.Some? {
      MissingIsExact(s.qpu, q.value, s.global);
    }
    if c.Some? {
      MissingIsExact(s.cpu, c.value, s.global);
    }
    inc := NextTimeIncrement(s.cpu, s.qpu, c, q, s.global);
    NothingWraps(s.global + inc);
  }

  /** Whether the clock has reached the end of the chosen task. */
  predicate Reached(r: Resource, next: Option<nat>, global: nat)
    requires next.Some? ==> next.value < |r.tasks|
  {
    next.Some? && global == r.clock + r.tasks[next.value].time
  }

  lemma FiresWhenReached(s: Sim, deps0: Dependences, onQpu: bool, next: Option<nat>)
    requires Chosen(s, deps0, onQpu, next)
    ensures Fired(s, onQpu, next) == Reached(On(s, onQpu), next, s.global)
  {
    if next.Some? {
      NothingWraps(s.global - On(s, onQpu).clock);
    }
  }

  lemma AdvancesInTime(s: Sim, deps0: Dependences, total: nat)
    requires TimesFit(s) && Trusted(s, deps0) && Bounded(s, total)
    ensures s.global <= Advance(s).global < TIME_RANGE
    ensures Chosen(Advance(s), deps0, true, NextAvailable(s.qpu.tasks, s.deps))
    ensures Chosen(Advance(s), deps0, false, NextAvailable(s.cpu.tasks, s.deps))
    ensures var q, c := NextAvailable(s.qpu.tasks, s.deps), NextAvailable(s.cpu.tasks, s.deps);
            (q.None? && c.None?) || Reached(s.qpu, q, Advance(s).global) || Reached(s.cpu, c, Advance(s).global)
  {
    var inc := Increment(s, deps0, total);
  }

  lemma ServedTotal(s: Sim, onQpu: bool, next: Option<nat>)
    requires next.Some? ==> next.value < |On(s, onQpu).tasks|
    ensures Total(On(ScheduleIfReady(s, onQpu, next), onQpu).tasks)
         == Total(On(s, onQpu).tasks) - if Fired(s, onQpu, next) then On(s, onQpu).tasks[next.value].time else 0
    ensures On(ScheduleIfReady(s, onQpu, next), !onQpu) == On(s, !onQpu) && ScheduleIfReady(s, onQpu, next).global == s.global
  {
    if next.Some? {
      TotalAt(On(s, onQpu).tasks, next.value);
    }
  }

  lemma StepBounded(s: Sim, deps0: Dependences, total: nat)
    requires TimesFit(s) && Trusted(s, deps0) && Bounded(s, total)
    ensures Bounded(Step(s), total) && s.global <= Step(s).global
  {
    AdvancesInTime(s, deps0, total);
    var q := NextAvailable(s.qpu.tasks, s.deps);
    var c := NextAvailable(s.cpu.tasks, s.deps);
    var t := Advance(s);
    var u := ScheduleIfReady(t, true, q);
    FiresWhenReached(t, deps0, true, q);
    ServedTotal(t, true, q);
    FiresWhenReached(t, deps0, false, c);
    ServedTotal(u, false, c);
  }

  lemma ReadyWhenReset(r: Resource, deps: Dependences, deps0: Dependences, log: seq<Event>, global: nat)
    requires r.clock == global && forall i :: 0 <= i < |log| ==> log[i].finish <= global
    ensures Ready(r, deps, deps0, log, global)
  {
  }

  /** The task waited for `done` and for nothing else that was waiting. */
  ghost predicate Released(name: nat, deps: Dependences, done: nat) {
    name in deps && done in deps[name] && forall d :: d in deps[name] && d in deps ==> d == done
  }

  /** A resource that keeps its task stays ready when it is chosen again, and otherwise only if no time had passed:
      whatever displaces the task depends on what has just been scheduled. */
  lemma ReadyWhenKept(r: Resource, n: nat, deps: Dependences, deps0: Dependences, log: seq<Event>, e: Event)
    requires n < |r.tasks| && NextAvailable(r.tasks, deps) == Some(n)
    requires r.clock <= e.finish && e.finish - r.clock <= r.tasks[n].time && Since(deps0, log, r.tasks[n].name, r.clock)
    requires forall m :: m in deps ==> m in deps0 && deps0[m] == deps[m]
    requires e.task.name in deps && e.task.name != r.tasks[n].name
    requires forall i :: 0 <= i < |log| ==> log[i].finish <= e.finish
    ensures Ready(r, deps - {e.task.name}, deps0, log + [e], e.finish)
       <==> NextAvailable(r.tasks, deps - {e.task.name}) == Some(n) || r.clock == e.finish
    ensures var next := NextAvailable(r.tasks, deps - {e.task.name});
            next.Some? && (next == Some(n) || Released(r.tasks[next.value].name, deps, e.task.name))
  {
    var deps', log' := deps - {e.task.name}, log + [e];
    SinceGrows(deps, deps0, log, r.tasks[n].name, r.clock, e);
    var next := NextAvailable(r.tasks, deps');
    assert IsTaskAvailable(r.tasks[n].name, deps');
    assert next.Some? && next.value <= n;
    if next != Some(n) {
      var name := r.tasks[next.value].name;
      assert !IsTaskAvailable(name, deps);
      assert Released(name, deps, e.task.name);
      assert e.task.name in deps0[name];
      assert log'[|log|] == e;
    }
  }

  lemma ReadyWhenIdle(r: Resource, n: nat, deps: Dependences, deps0: Dependences, log: seq<Event>, global: nat)
    requires n < |r.tasks| && NextAvailable(r.tasks, deps) == Some(n)
    requires r.clock <= global && global - r.clock <= r.tasks[n].time && Since(deps0, log, r.tasks[n].name, r.clock)
    ensures Ready(r, deps, deps0, log, global)
  {
  }

  /** One resource after an iteration: it was reset to the clock, or kept its task while `other` may have been scheduled. */
  lemma ReadyAfter(r: Resource, r': Resource, deps: Dependences, deps': Dependences, deps0: Dependences,
                   log: seq<Event>, log': seq<Event>, global: nat, other: Option<Event>)
    requires r.clock <= global
    requires forall m :: m in deps ==> m in deps0 && deps0[m] == deps[m]
    requires forall i :: 0 <= i < |log'| ==> log'[i].finish <= global
    requires var next := NextAvailable(r.tasks, deps);
             if next.None? || |r'.tasks| < |r.tasks| then r'.clock == global
             else r' == r && global - r.clock <= r.tasks[next.value].time && Since(deps0, log, r.tasks[next.value].name, r.clock)
                  && match other
                     case None => deps' == deps && log' == log
                     case Some(e) => e.finish == global && deps' == deps - {e.task.name} && log' == log + [e]
                                     && e.task.name in deps && e.task.name != r.tasks[next.value].name
    ensures Ready(r', deps', deps0, log', global) <==> Undisplaced(r, deps, r', deps', global)
  {
    var next := NextAvailable(r.tasks, deps);
    if next.None? || |r'.tasks| < |r.tasks| {
      ReadyWhenReset(r', deps', deps0, log', global);
    } else if other.Some? {
      assert forall i :: 0 <= i < |log| ==> log'[i] == log[i];
      ReadyWhenKept(r, next.value, deps, deps0, log, other.value);
    } else {
      ReadyWhenIdle(r, next.value, deps, deps0, log, global);
    }
  }

  /** The event that serving a resource logs. */
  function Logged(s: Sim, onQpu: bool, next: Option<nat>): Option<Event>
    requires next.Some? ==> next.value < |On(s, onQpu).tasks|
  {
    if Fired(s, onQpu, next) then Some(Event(On(s, onQpu).tasks[next.value], onQpu, s.global)) else None
  }

  /** An event that one resource logs is of a waiting task, and not of the task chosen on the other. */
  lemma LoggedIsOther(s: Sim, deps0: Dependences, onQpu: bool, next: Option<nat>, other: Option<nat>)
    requires Keyed(s, deps0)
    requires next.Some? ==> next.value < |On(s, onQpu).tasks|
    requires other.Some? ==> other.value < |On(s, !onQpu).tasks|
    ensures Logged(s, onQpu, next).Some? ==> Logged(s, onQpu, next).value.task.name in s.deps
    ensures Logged(s, onQpu, next).Some? && other.Some? ==>
              Logged(s, onQpu, next).value.task.name != On(s, !onQpu).tasks[other.value].name
  {
    if next.Some? {
      WaitingIsKnown(s, onQpu, next.value);
      if other.Some? {
        var c, q := (if onQpu then other.value else next.value), (if onQpu then next.value else other.value);
        assert Names(s)[c] == s.cpu.tasks[c].name && Names(s)[|s.cpu.tasks| + q] == s.qpu.tasks[q].name;
      }
    }
  }

  /** What serving one resource changes. */
  ghost predicate Served(s: Sim, onQpu: bool, next: Option<nat>, t: Sim)
    requires next.Some? ==> next.value < |On(s, onQpu).tasks|
  {
    var e := Logged(s, onQpu, next);
    && t.log == (if e.Some? then s.log + [e.value] else s.log)
    && t.deps == (if e.Some? then s.deps - {e.value.task.name} else s.deps)
    && t.global == s.global && On(t, !onQpu) == On(s, !onQpu)
    && (if e.Some? || next.None? then On(t, onQpu).clock == s.global else On(t, onQpu) == On(s, onQpu))
    && (|On(t, onQpu).tasks| < |On(s, onQpu).tasks| <==> e.Some?)
  }

  lemma ServedLog(s: Sim, onQpu: bool, next: Option<nat>)
    requires next.Some? ==> next.value < |On(s, onQpu).tasks|
    ensures Served(s, onQpu, next, ScheduleIfReady(s, onQpu, next))
  {
  }

  lemma BothServed(s: Sim, deps0: Dependences, q: Option<nat>, c: Option<nat>)
    requires Keyed(s, deps0) && q == NextAvailable(s.qpu.tasks, s.deps) && c == NextAvailable(s.cpu.tasks, s.deps)
    requires Chosen(s, deps0, true, q) && Chosen(s, deps0, false, c)
    requires EndsBy(s.log, s.cpu.clock, s.qpu.clock, s.global) && Timed(deps0, s.log)
    ensures var v := ScheduleIfReady(ScheduleIfReady(s, true, q), false, c);
            EndsBy(v.log, v.cpu.clock, v.qpu.clock, v.global) && Timed(deps0, v.log)
  {
    var u := ScheduleIfReady(s, true, q);
    ServedInTime(s, deps0, true, q);
    ServedLog(s, true, q);
    LoggedIsOther(s, deps0, true, q, c);
    if c.Some? && Fired(s, true, q) {
      var name := s.cpu.tasks[c.value].name;
      WaitingIsKnown(s, false, c.value);
      SinceGrows(s.deps, deps0, s.log, name, s.cpu.clock, Logged(s, true, q).value);
    }
    assert Chosen(u, deps0, false, c);
    ServedInTime(u, deps0, false, c);
  }

  /** What both services leave of one resource; the rest of the state matters only when it logged nothing. */
  ghost predicate AfterBoth(s: Sim, onQpu: bool, next: Option<nat>, other: Option<nat>, v: Sim)
    requires next.Some? ==> next.value < |On(s, onQpu).tasks|
    requires other.Some? ==> other.value < |On(s, !onQpu).tasks|
  {
    var mine, e := Logged(s, onQpu, next), Logged(s, !onQpu, other);
    && (mine.None? ==> v.deps == if e.Some? then s.deps - {e.value.task.name} else s.deps)
    && (mine.None? ==> v.log == if e.Some? then s.log + [e.value] else s.log)
    && (if mine.Some? || next.None? then On(v, onQpu).clock == s.global else On(v, onQpu) == On(s, onQpu))
    && (|On(v, onQpu).tasks| < |On(s, onQpu).tasks| <==> mine.Some?)
    && v.global == s.global
  }

  lemma ServedBoth(s: Sim, q: Option<nat>, c: Option<nat>, u: Sim, v: Sim)
    requires q.Some? ==> q.value < |s.qpu.tasks|
    requires c.Some? ==> c.value < |s.cpu.tasks|
    requires Served(s, true, q, u) && Served(u, false, c, v)
    ensures AfterBoth(s, true, q, c, v) && AfterBoth(s, false, c, q, v)
  {
    assert Logged(u, false, c) == Logged(s, false, c);
  }

  /** A resource, after both have been served, is ready exactly when its task was not displaced. */
  lemma ReadyAfterBoth(s: Sim, deps0: Dependences, onQpu: bool, next: Option<nat>, other: Option<nat>, v: Sim)
    requires Keyed(s, deps0) && next == NextAvailable(On(s, onQpu).tasks, s.deps) && Chosen(s, deps0, onQpu, next)
    requires other.Some? ==> other.value < |On(s, !onQpu).tasks|
    requires AfterBoth(s, onQpu, next, other, v)
    requires forall i :: 0 <= i < |v.log| ==> v.log[i].finish <= v.global
    ensures Ready(On(v, onQpu), v.deps, deps0, v.log, v.global)
       <==> Undisplaced(On(s, onQpu), s.deps, On(v, onQpu), v.deps, v.global)
  {
    LoggedIsOther(s, deps0, !onQpu, other, next);
    ReadyAfter(On(s, onQpu), On(v, onQpu), s.deps, v.deps, deps0, s.log, v.log, v.global, Logged(s, !onQpu, other));
  }

  /** The invariant is kept by an iteration exactly when no timed task is displaced. */
  lemma StepTrusted(s: Sim, deps0: Dependences, total: nat)
    requires Keyed(s, deps0) && TimesFit(s) && Trusted(s, deps0) && Bounded(s, total)
    ensures Trusted(Step(s), deps0) <==> Calm(s)
  {
    AdvancesInTime(s, deps0, total);
    var q := NextAvailable(s.qpu.tasks, s.deps);
    var c := NextAvailable(s.cpu.tasks, s.deps);
    var t := Advance(s);
    assert Names(t) == Names(s);
    BothServed(t, deps0, q, c);
    var u := ScheduleIfReady(t, true, q);
    ServedLog(t, true, q);
    ServedLog(u, false, c);
    var v := ScheduleIfReady(u, false, c);
    ServedBoth(t, q, c, u, v);
    ReadyAfterBoth(t, deps0, true, q, c, v);
    ReadyAfterBoth(t, deps0, false, c, q, v);
  }

  // ---------- whole runs ----------

  ghost predicate CalmRun(s: Sim, deps0: Dependences)
    requires Sane(s, deps0)
    decreases Waiting(s)
  {
    if Waiting(s) == 0 then true
    else
      NextRound(s, deps0);
      Calm(s) && CalmRun(Step(s), deps0)
  }

  /** Every state of the run meets the invariant. */
  ghost predicate TrustedRun(s: Sim, deps0: Dependences)
    requires Sane(s, deps0)
    decreases Waiting(s)
  {
    if Waiting(s) == 0 then Trusted(s, deps0)
    else
      NextRound(s, deps0);
      Trusted(s, deps0) && TrustedRun(Step(s), deps0)
  }

  /** The global clock never decreases on the run. */
  ghost predicate Rising(s: Sim, deps0: Dependences)
    requires Sane(s, deps0)
    decreases Waiting(s)
  {
    if Waiting(s) == 0 then true
    else
      NextRound(s, deps0);
      s.global <= Step(s).global && Rising(Step(s), deps0)
  }

  lemma NotTrusted(s: Sim, deps0: Dependences)
    requires Sane(s, deps0) && !Trusted(s, deps0)
    ensures !TrustedRun(s, deps0)
  {
  }

  /** All states of a run meet the invariant exactly when none of its steps displaces a timed task; then the clock never
      decreases. */
  lemma {:induction false} CalmIsTrusted(s: Sim, deps0: Dependences, total: nat)
    requires Sane(s, deps0) && Trusted(s, deps0) && Bounded(s, total)
    ensures TrustedRun(s, deps0) <==> CalmRun(s, deps0)
    ensures CalmRun(s, deps0) ==> Rising(s, deps0) && Trusted(Run(s, deps0), deps0)
    decreases Waiting(s)
  {
    if Waiting(s) > 0 {
      NextRound(s, deps0);
      StepTrusted(s, deps0, total);
      StepBounded(s, deps0, total);
      if Trusted(Step(s), deps0) {
        CalmIsTrusted(Step(s), deps0, total);
      } else {
        NotTrusted(Step(s), deps0);
      }
    }
  }

  /** Events of one resource do not overlap, and no event starts before the events it depends on end. */
  ghost predicate Timeline(log: seq<Event>, deps0: Dependences) {
    forall i, j :: 0 <= i < |log| && 0 <= j < |log| && i != j ==>
      && (log[i].task.name in deps0 && log[j].task.name in deps0[log[i].task.name] ==> log[j].finish <= StartOf(log[i]))
      && (log[i].onQpu == log[j].onQpu ==> log[j].finish <= StartOf(log[i]) || log[i].finish <= StartOf(log[j]))
  }

  lemma LoggedBefore(log: seq<Event>, i: nat, j: nat)
    requires Distinct(LogNames(log)) && i < |log| && j < |log| && log[j].task.name in LogNames(log[..i])
    ensures j < i
  {
    var k :| 0 <= k < i && LogNames(log[..i])[k] == log[j].task.name;
    assert LogNames(log)[k] == LogNames(log)[j];
  }

  lemma TimedIsTimeline(log: seq<Event>, deps0: Dependences)
    requires Timed(deps0, log) && Distinct(LogNames(log))
    requires forall i, d :: 0 <= i < |log| && log[i].task.name in deps0 && d in deps0[log[i].task.name] && d in deps0 ==>
               d in LogNames(log[..i])
    requires forall i :: 0 <= i < |log| ==> log[i].task.name in deps0
    ensures Timeline(log, deps0)
  {
    forall i, j | 0 <= i < |log| && 0 <= j < |log| && i != j
      ensures log[j].task.name in deps0[log[i].task.name] ==> log[j].finish <= StartOf(log[i])
      ensures log[i].onQpu == log[j].onQpu ==> log[j].finish <= StartOf(log[i]) || log[i].finish <= StartOf(log[j])
    {
      assert StartsAfter(deps0, log[..i], log[i]) && StartsAfter(deps0, log[..j], log[j]);
      if log[j].task.name in deps0[log[i].task.name] {
        LoggedBefore(log, i, j);
      }
      if j < i {
        assert log[..i][j] == log[j];
      } else {
        assert log[..j][i] == log[i];
      }
    }
  }

  /** When no step displaces a timed task and the times sum to a 64-bit value, the clock never decreases,
      every task starts after its dependences end, and tasks of one resource never overlap. */
  lemma CalmRunKeepsTime(cpu: seq<Task>, qpu: seq<Task>, deps: Dependences)
    requires Accepted(cpu, qpu, deps) && Total(cpu) + Total(qpu) < TIME_RANGE
    requires Sane(Start(cpu, qpu, deps), deps) && CalmRun(Start(cpu, qpu, deps), deps)
    ensures Rising(Start(cpu, qpu, deps), deps) && Timeline(Run(Start(cpu, qpu, deps), deps).log, deps)
  {
    var s := Start(cpu, qpu, deps);
    var end := Run(s, deps);
    CalmIsTrusted(s, deps, Total(cpu) + Total(qpu));
    RunIsLinear(s, deps);
    forall i | 0 <= i < |end.log| ensures end.log[i].task.name in deps {
      assert LogNames(end.log)[i] in LogNames(end.log);
    }
    TimedIsTimeline(end.log, deps);
  }

  // ---------- lists that cannot displace ----------

  /** Each task of the list depends on the one listed before it. */
  ghost predicate Chained(tasks: seq<Task>, deps0: Dependences) {
    forall i :: 0 < i < |tasks| ==> tasks[i].name in deps0 && tasks[i - 1].name in deps0[tasks[i].name]
  }

  /** In a chain, only the first task can be next. */
  ghost predicate HeadOrNone(next: Option<nat>) {
    next.Some? ==> next.value == 0
  }

  lemma OnlyHeadAvailable(tasks: seq<Task>, deps: Dependences, deps0: Dependences)
    requires Chained(tasks, deps0) && forall i :: 0 <= i < |tasks| ==> tasks[i].name in deps
    requires forall n :: n in deps ==> n in deps0 && deps0[n] == deps[n]
    ensures HeadOrNone(NextAvailable(tasks, deps))
  {
    forall i | 0 < i < |tasks| ensures !IsTaskAvailable(tasks[i].name, deps) {
      assert tasks[i - 1].name in deps;
    }
  }

  lemma ChainedNext(s: Sim, deps0: Dependences, onQpu: bool)
    requires Keyed(s, deps0) && Chained(On(s, onQpu).tasks, deps0)
    ensures HeadOrNone(NextAvailable(On(s, onQpu).tasks, s.deps))
  {
    forall i | 0 <= i < |On(s, onQpu).tasks| ensures On(s, onQpu).tasks[i].name in s.deps {
      WaitingIsKnown(s, onQpu, i);
    }
    OnlyHeadAvailable(On(s, onQpu).tasks, s.deps, deps0);
  }

  lemma ChainedServed(s: Sim, t: Sim, deps0: Dependences, onQpu: bool, next: Option<nat>)
    requires Chained(On(s, onQpu).tasks, deps0) && HeadOrNone(next)
    requires next.Some? ==> |On(s, onQpu).tasks| > 0
    requires On(t, onQpu) == On(ScheduleIfReady(s, onQpu, next), onQpu)
    ensures Chained(On(t, onQpu).tasks, deps0)
  {
  }

  lemma HeadStays(s: Sim, v: Sim, deps0: Dependences, onQpu: bool)
    requires HeadOrNone(NextAvailable(On(s, onQpu).tasks, s.deps)) && Keyed(v, deps0)
    requires forall d :: d in v.deps ==> d in s.deps && v.deps[d] == s.deps[d]
    requires |On(v, onQpu).tasks| < |On(s, onQpu).tasks| || On(v, onQpu).tasks == On(s, onQpu).tasks
    ensures Undisplaced(On(s, onQpu), s.deps, On(v, onQpu), v.deps, v.global)
  {
    if NextAvailable(On(s, onQpu).tasks, s.deps) == Some(0) && On(v, onQpu).tasks == On(s, onQpu).tasks {
      WaitingIsKnown(v, onQpu, 0);
    }
  }

  lemma ChainedStep(s: Sim, deps0: Dependences)
    requires Keyed(s, deps0) && Keyed(Step(s), deps0) && Chained(s.cpu.tasks, deps0) && Chained(s.qpu.tasks, deps0)
    ensures Calm(s) && Chained(Step(s).cpu.tasks, deps0) && Chained(Step(s).qpu.tasks, deps0)
  {
    var q := NextAvailable(s.qpu.tasks, s.deps);
    var c := NextAvailable(s.cpu.tasks, s.deps);
    var t := Advance(s);
    var u := ScheduleIfReady(t, true, q);
    var v := ScheduleIfReady(u, false, c);
    ChainedNext(s, deps0, true);
    ChainedNext(s, deps0, false);
    ChainedServed(t, v, deps0, true, q);
    ChainedServed(u, v, deps0, false, c);
    ServedLog(t, true, q);
    ServedLog(u, false, c);
    HeadStays(s, v, deps0, true);
    HeadStays(s, v, deps0, false);
  }

  /** When each list is a chain of dependences, no run displaces a task. */
  lemma {:induction false} ChainedIsCalm(s: Sim, deps0: Dependences)
    requires Sane(s, deps0) && Chained(s.cpu.tasks, deps0) && Chained(s.qpu.tasks, deps0)
    ensures CalmRun(s, deps0)
    decreases Waiting(s)
  {
    if Waiting(s) > 0 {
      NextRound(s, deps0);
      ChainedStep(s, deps0);
      ChainedIsCalm(Step(s), deps0);
    }
  }

  // ---------- a clock that runs backwards ----------

  const SLOW_HOST := [Task(1, 1), Task(3, 10)]
  const QUICK_QPU := [Task(2, 5)]
  const ONE_WAITS: Dependences := map[1 := [2], 2 := [], 3 := []]

  /** The state after the first iteration: task 3 has run for 5 of its 10. */
  const INTERRUPTED := Sim(Resource(SLOW_HOST, 0), Resource([], 5), map[1 := [2], 3 := []], 5, [Event(Task(2, 5), true, 5)])

  lemma FirstAdvance()
    ensures NextAvailable(SLOW_HOST, ONE_WAITS) == Some(1) && NextAvailable(QUICK_QPU, ONE_WAITS) == Some(0)
    ensures Advance(Start(SLOW_HOST, QUICK_QPU, ONE_WAITS)).global == 5
  {
    assert IsTaskAvailable(3, ONE_WAITS) && IsTaskAvailable(2, ONE_WAITS) && !IsTaskAvailable(1, ONE_WAITS);
  }

  lemma FirstIteration()
    ensures Step(Start(SLOW_HOST, QUICK_QPU, ONE_WAITS)) == INTERRUPTED
  {
    FirstAdvance();
    var t := Advance(Start(SLOW_HOST, QUICK_QPU, ONE_WAITS));
    var u := ScheduleIfReady(t, true, Some(0));
    assert ONE_WAITS - {2} == INTERRUPTED.deps;
    assert u.qpu == INTERRUPTED.qpu && u.log == INTERRUPTED.log;
    assert u == INTERRUPTED;
    assert ScheduleIfReady(u, false, Some(1)) == u;
  }

  lemma SecondIteration()
    ensures Step(INTERRUPTED).global == 1
    ensures Step(INTERRUPTED).log == [Event(Task(2, 5), true, 5), Event(Task(1, 1), false, 1)]
  {
    assert IsTaskAvailable(1, INTERRUPTED.deps);
    assert NextAvailable(SLOW_HOST, INTERRUPTED.deps) == Some(0) && NextAvailable([], INTERRUPTED.deps) == None;
    assert Missing(INTERRUPTED.cpu, 0, 5) == TIME_RANGE - 4;
    assert Advance(INTERRUPTED).global == 1;
  }

  lemma OneWaitsIsAccepted()
    ensures Accepted(SLOW_HOST, QUICK_QPU, ONE_WAITS)
  {
    assert NamesOf(SLOW_HOST) + NamesOf(QUICK_QPU) == [1, 3, 2];
    RankedIsAcyclic(Releases(ONE_WAITS), map[1 := 0, 2 := 1, 3 := 0]);
  }

  /** Task 1, released by task 2, displaces task 3: the clock falls back from 5 to 1, and task 1 is given a start
      before the end of the task it waited for. */
  lemma DisplacedClockRunsBack()
    ensures var s := Start(SLOW_HOST, QUICK_QPU, ONE_WAITS);
            && Accepted(SLOW_HOST, QUICK_QPU, ONE_WAITS) && 2 in ONE_WAITS[1]
            && Step(s).global == 5 && Step(Step(s)).global == 1
            && Step(Step(s)).log == [Event(Task(2, 5), true, 5), Event(Task(1, 1), false, 1)]
  {
    FirstIteration();
    SecondIteration();
    OneWaitsIsAccepted();
  }
}
