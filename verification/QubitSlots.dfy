/** The allocator that hands out the lowest free qubit, and the counting that predicts how many qubits it needs. */
module QubitSlots {
  import opened Graph

  const MAX_PHY_QUBITS: nat := 16
  const NO_QUBIT: nat := 0xff

  function LowestFrom(taken: set<nat>, i: nat): (id: nat)
    requires i <= MAX_PHY_QUBITS
    decreases MAX_PHY_QUBITS - i
  {
    if i == MAX_PHY_QUBITS then NO_QUBIT else if i !in taken then i else LowestFrom(taken, i + 1)
  }

  /** The lowest of the sixteen qubits that is not taken. */
  function LowestFree(taken: set<nat>): (id: nat) {
    LowestFrom(taken, 0)
  }

  lemma {:induction false} LowestFromIs(taken: set<nat>, i: nat, from: nat)
    requires from <= i < MAX_PHY_QUBITS && i !in taken && forall k :: from <= k < i ==> k in taken
    ensures LowestFrom(taken, from) == i
    decreases i - from
  {
    if from < i {
      LowestFromIs(taken, i, from + 1);
    }
  }

  lemma LowestIs(taken: set<nat>, i: nat)
    requires i < MAX_PHY_QUBITS && i !in taken && forall k :: 0 <= k < i ==> k in taken
    ensures LowestFree(taken) == i
  {
    LowestFromIs(taken, i, 0);
  }

  lemma {:induction false} LowestFromNone(taken: set<nat>, from: nat)
    requires from <= MAX_PHY_QUBITS && forall k :: from <= k < MAX_PHY_QUBITS ==> k in taken
    ensures LowestFrom(taken, from) == NO_QUBIT
    decreases MAX_PHY_QUBITS - from
  {
    if from < MAX_PHY_QUBITS {
      LowestFromNone(taken, from + 1);
    }
  }

  lemma LowestIsNone(taken: set<nat>)
    requires forall k :: 0 <= k < MAX_PHY_QUBITS ==> k in taken
    ensures LowestFree(taken) == NO_QUBIT
  {
    LowestFromNone(taken, 0);
  }

  lemma {:induction false} LowestFromBelow(taken: set<nat>, from: nat)
    requires from <= MAX_PHY_QUBITS
    ensures var id := LowestFrom(taken, from);
            if id == NO_QUBIT then forall k :: from <= k < MAX_PHY_QUBITS ==> k in taken
            else from <= id < MAX_PHY_QUBITS && id !in taken && forall k :: from <= k < id ==> k in taken
    decreases MAX_PHY_QUBITS - from
  {
    if from < MAX_PHY_QUBITS && from in taken {
      LowestFromBelow(taken, from + 1);
    }
  }

  class QubitContext {
    /** For each qubit, whether it is taken. */
    var qubits: map<nat, bool>

    ghost predicate Valid()
      reads this
    {
      forall i :: 0 <= i < MAX_PHY_QUBITS ==> i in qubits
    }

    ghost function Taken(): set<nat>
      reads this
    {
      set i | i in qubits && qubits[i]
    }

    constructor ()
      ensures Valid() && Taken() == {}
    {
      qubits := map[];
      new;
      for i := 0 to MAX_PHY_QUBITS
        invariant Taken() == {} && forall k :: 0 <= k < i ==> k in qubits
      {
        qubits := qubits[i := false];
      }
    }

    /** Takes the lowest free qubit, or none when all are taken. */
    method AllocateQubit() returns (id: nat)
      requires Valid()
      modifies this
      ensures Valid() && id == LowestFree(old(Taken()))
      ensures Taken() == if id == NO_QUBIT then old(Taken()) else old(Taken()) + {id}
      ensures || (id < 16 && id !in old(Taken()) && forall k :: 0 <= k < id ==> k in old(Taken()))
              || (id == 0xff && forall k :: 0 <= k < 16 ==> k in old(Taken()))
    {
      LowestFromBelow(Taken(), 0);
      ghost var taken := Taken();
      for i := 0 to MAX_PHY_QUBITS
        invariant Valid() && Taken() == taken && forall k :: 0 <= k < i ==> k in taken
      {
        if !qubits[i] {
          LowestIs(taken, i);
          qubits := qubits[i := true];
          return i;
        }
      }
      LowestIsNone(taken);
      return NO_QUBIT;
    }

    method ReleaseQubit(reg: nat)
      requires Valid()
      modifies this
      ensures Valid() && Taken() == old(Taken()) - {reg}
    {
      qubits := qubits[reg := false];
    }
  }

  // ---------- traces ----------

  /** An allocation, or the measurement of the qubit that the given allocation took. */
  datatype Event = Alloc | Measure(allocation: nat)

  /** The qubit of each allocation so far, and the allocations not yet measured. */
  datatype Replay = Replay(ids: seq<nat>, live: set<nat>)

  ghost predicate Sane(s: Replay) {
    forall j :: j in s.live ==> j < |s.ids|
  }

  /** The qubits that are held; an allocation that got none holds none. */
  function Held(s: Replay): set<nat>
    requires Sane(s)
  {
    set j | j in s.live && s.ids[j] != NO_QUBIT :: s.ids[j]
  }

  function Step(s: Replay, e: Event): (t: Replay)
    requires Sane(s)
    ensures Sane(t)
  {
    match e
    case Alloc => Replay(s.ids + [LowestFree(Held(s))], s.live + {|s.ids|})
    case Measure(j) => Replay(s.ids, s.live - {j})
  }

  function After(trace: seq<Event>): (s: Replay)
    ensures Sane(s)
  {
    if trace == [] then Replay([], {}) else Step(After(trace[..|trace| - 1]), trace[|trace| - 1])
  }

  /** Only held qubits are measured. */
  ghost predicate MeasuresHeld(trace: seq<Event>) {
    trace == [] || (MeasuresHeld(trace[..|trace| - 1])
                    && (trace[|trace| - 1].Measure? ==> trace[|trace| - 1].allocation in After(trace[..|trace| - 1]).live))
  }

  /** How many qubits are held at the end of a trace, by counting its events. */
  function HeldCount(trace: seq<Event>): int {
    if trace == [] then 0 else HeldCount(trace[..|trace| - 1]) + if trace[|trace| - 1].Alloc? then 1 else -1
  }

  /** The largest number of qubits held at once. */
  function Peak(trace: seq<Event>): (p: nat)
    ensures p >= HeldCount(trace)
  {
    if trace == [] then 0
    else
      var before := Peak(trace[..|trace| - 1]);
      if HeldCount(trace) > before then HeldCount(trace) else before
  }

  /** The peak is reached, and never passed. */
  lemma {:induction false} PeakIsReached(trace: seq<Event>)
    ensures exists k :: 0 <= k <= |trace| && HeldCount(trace[..k]) == Peak(trace)
    ensures forall k :: 0 <= k <= |trace| ==> HeldCount(trace[..k]) <= Peak(trace)
  {
    assert trace[..|trace|] == trace;
    if trace != [] {
      var front := trace[..|trace| - 1];
      PeakIsReached(front);
      assert forall k :: 0 <= k <= |front| ==> front[..k] == trace[..k];
    }
  }

  // ---------- the allocator ----------

  /** Qubits held together are different. */
  ghost predicate HeldApart(s: Replay) {
    Sane(s) && forall i, j :: i in s.live && j in s.live && s.ids[i] == s.ids[j] != NO_QUBIT ==> i == j
  }

  /** Whatever the trace, two allocations that are live together never share a qubit. */
  lemma {:induction false} LiveNeverShare(trace: seq<Event>)
    ensures HeldApart(After(trace))
  {
    if trace != [] {
      var s := After(trace[..|trace| - 1]);
      LiveNeverShare(trace[..|trace| - 1]);
      LowestFromBelow(Held(s), 0);
    }
  }

  /** The qubits used so far are the numbers below the peak. */
  ghost predicate Compact(s: Replay, peak: nat) {
    && HeldApart(s) && peak <= 16
    && (forall i :: 0 <= i < |s.ids| ==> s.ids[i] < peak)
    && (forall id :: 0 <= id < peak ==> id in s.ids)
  }

  lemma {:induction false} DistinctCount(live: set<nat>, ids: seq<nat>, held: set<nat>)
    requires (forall j :: j in live ==> j < |ids|) && held == set j | j in live :: ids[j]
    requires forall i, j :: i in live && j in live && ids[i] == ids[j] ==> i == j
    ensures |held| == |live|
    decreases |live|
  {
    if live != {} {
      var j :| j in live;
      DistinctCount(live - {j}, ids, held - {ids[j]});
    }
  }

  lemma Subset(a: set<nat>, b: set<nat>)
    requires a <= b
    ensures |a| <= |b| && (|a| == |b| ==> a == b) && (|a| < |b| ==> exists x :: x in b && x !in a)
  {
    assert b == a + (b - a) && |b| == |a| + |b - a|;
    if |a| < |b| {
      assert b - a != {};
      var x :| x in b - a;
    }
  }

  lemma HeldBelow(s: Replay, peak: nat)
    requires Compact(s, peak)
    ensures Held(s) <= Below(peak) && |Held(s)| == |s.live| <= peak
    ensures |s.live| == peak ==> Held(s) == Below(peak)
  {
    assert Held(s) == set j | j in s.live :: s.ids[j];
    DistinctCount(s.live, s.ids, Held(s));
    Subset(Held(s), Below(peak));
  }

  lemma LowestOfAll(n: nat)
    requires n <= MAX_PHY_QUBITS
    ensures LowestFree(Below(n)) == if n < MAX_PHY_QUBITS then n else NO_QUBIT
  {
    if n < MAX_PHY_QUBITS {
      LowestIs(Below(n), n);
    } else {
      LowestIsNone(Below(n));
    }
  }

  lemma LowestOfSome(held: set<nat>, n: nat)
    requires n <= MAX_PHY_QUBITS && held <= Below(n) && |held| < n
    ensures LowestFree(held) < n
  {
    Subset(held, Below(n));
    var free: nat :| free in Below(n) && free !in held;
    LowestFromBelow(held, 0);
  }

  /** Below the peak there is a free qubit exactly when fewer qubits are held than the peak. */
  lemma LowestAgainstPeak(s: Replay, peak: nat)
    requires Compact(s, peak)
    ensures |s.live| <= peak
    ensures LowestFree(Held(s)) == NO_QUBIT || LowestFree(Held(s)) <= peak
    ensures |s.live| < peak ==> LowestFree(Held(s)) < peak
    ensures |s.live| == peak ==> LowestFree(Held(s)) == if peak < MAX_PHY_QUBITS then peak else NO_QUBIT
  {
    HeldBelow(s, peak);
    if |s.live| < peak {
      LowestOfSome(Held(s), peak);
    } else {
      LowestOfAll(peak);
    }
  }

  lemma CompactStep(s: Replay, e: Event, peak: nat)
    requires Compact(s, peak) && HeldApart(Step(s, e))
    ensures e.Measure? || |s.live| < peak ==> Compact(Step(s, e), peak)
    ensures e.Alloc? && |s.live| == peak < MAX_PHY_QUBITS ==> Compact(Step(s, e), peak + 1)
  {
    var t := Step(s, e);
    if e.Alloc? {
      LowestAgainstPeak(s, peak);
      assert t.ids[|s.ids|] == LowestFree(Held(s));
      assert forall id :: id in s.ids ==> id in t.ids;
    }
  }

  lemma {:induction false} LiveIsHeldCount(trace: seq<Event>)
    requires MeasuresHeld(trace)
    ensures |After(trace).live| == HeldCount(trace)
  {
    if trace != [] {
      LiveIsHeldCount(trace[..|trace| - 1]);
    }
  }

  /** Up to a peak of sixteen, the qubits handed out are exactly the numbers below the peak. */
  lemma {:induction false} AllocatorIsCompact(trace: seq<Event>)
    requires MeasuresHeld(trace) && Peak(trace) <= 16
    ensures Compact(After(trace), Peak(trace))
  {
    LiveNeverShare(trace);
    if trace != [] {
      var front := trace[..|trace| - 1];
      AllocatorIsCompact(front);
      LiveIsHeldCount(front);
      LiveIsHeldCount(trace);
      LowestAgainstPeak(After(front), Peak(front));
      CompactStep(After(front), trace[|trace| - 1], Peak(front));
    }
  }

  /** The allocator runs out of qubits exactly when more than sixteen are held at once. */
  lemma {:induction false} RunsOutAbovePeak(trace: seq<Event>)
    requires MeasuresHeld(trace)
    ensures 0xff in After(trace).ids <==> Peak(trace) > 16
  {
    if Peak(trace) <= MAX_PHY_QUBITS {
      AllocatorIsCompact(trace);
    } else if trace != [] {
      var front := trace[..|trace| - 1];
      RunsOutAbovePeak(front);
      if Peak(front) <= MAX_PHY_QUBITS {
        AllocatorIsCompact(front);
        LiveIsHeldCount(front);
        LowestAgainstPeak(After(front), Peak(front));
        assert After(trace).ids[|After(front).ids|] == NO_QUBIT;
      }
    }
  }

  lemma HeldStep(s: Replay, e: Event)
    requires HeldApart(s) && (e.Measure? ==> e.allocation in s.live)
    ensures e.Alloc? ==> Held(Step(s, e)) == if LowestFree(Held(s)) == NO_QUBIT then Held(s) else Held(s) + {LowestFree(Held(s))}
    ensures e.Measure? ==> Held(Step(s, e)) == Held(s) - {s.ids[e.allocation]}
  {
    if e.Alloc? {
      assert forall j :: j in s.live ==> Step(s, e).ids[j] == s.ids[j];
      assert Step(s, e).ids[|s.ids|] == LowestFree(Held(s));
    }
  }

  lemma {:induction false} MeasuresHeldBefore(trace: seq<Event>, n: nat)
    requires n <= |trace| && MeasuresHeld(trace)
    ensures MeasuresHeld(trace[..n])
  {
    if n < |trace| {
      MeasuresHeldBefore(trace[..|trace| - 1], n);
      assert trace[..|trace| - 1][..n] == trace[..n];
    } else {
      assert trace[..n] == trace;
    }
  }

  lemma NextOfTrace(trace: seq<Event>, i: nat)
    requires i < |trace| && MeasuresHeld(trace)
    ensures After(trace[..i + 1]) == Step(After(trace[..i]), trace[i])
    ensures MeasuresHeld(trace[..i + 1]) && (trace[i].Measure? ==> trace[i].allocation in After(trace[..i]).live)
  {
    assert trace[..i + 1][..i] == trace[..i];
    MeasuresHeldBefore(trace, i + 1);
  }

  /** The allocator, driven by a trace: each measurement releases the qubit of its allocation. */
  method AssignQubits(trace: seq<Event>) returns (ids: seq<nat>)
    requires MeasuresHeld(trace)
    ensures ids == After(trace).ids
  {
    var context := new QubitContext();
    ids := [];
    assert trace[..0] == [];
    for i := 0 to |trace|
      invariant fresh(context) && context.Valid() && MeasuresHeld(trace[..i])
      invariant ids == After(trace[..i]).ids && context.Taken() == Held(After(trace[..i]))
    {
      NextOfTrace(trace, i);
      LiveNeverShare(trace[..i]);
      HeldStep(After(trace[..i]), trace[i]);
      match trace[i]
      case Alloc =>
        var id := context.AllocateQubit();
        ids := ids + [id];
      case Measure(j) =>
        context.ReleaseQubit(ids[j]);
    }
    assert trace[..|trace|] == trace;
  }

  // ---------- the counters ----------

  datatype Counts = Counts(virtualQubits: nat, physicalQubits: nat, measured: nat)

  /** A new qubit reuses a measured one when there is one. */
  function CountEvent(c: Counts, e: Event): Counts {
    if e.Measure? then c.(measured := c.measured + 1)
    else if c.measured == 0 then c.(virtualQubits := c.virtualQubits + 1, physicalQubits := c.physicalQubits + 1)
    else c.(virtualQubits := c.virtualQubits + 1, measured := c.measured - 1)
  }

  function Count(trace: seq<Event>): Counts {
    if trace == [] then Counts(0, 0, 0) else CountEvent(Count(trace[..|trace| - 1]), trace[|trace| - 1])
  }

  /** The counters go on from one routine to the next. */
  method ProcessCalleeQMemOps(ops: seq<Event>, virtualQubits: nat, physicalQubits: nat, measured: nat, ghost before: seq<Event>)
    returns (virtualQubits': nat, physicalQubits': nat, measured': nat)
    requires Counts(virtualQubits, physicalQubits, measured) == Count(before)
    ensures Counts(virtualQubits', physicalQubits', measured') == Count(before + ops)
  {
    virtualQubits', physicalQubits', measured' := virtualQubits, physicalQubits, measured;
    assert before + ops[..0] == before;
    for i := 0 to |ops|
      invariant Counts(virtualQubits', physicalQubits', measured') == Count(before + ops[..i])
    {
      assert (before + ops[..i + 1])[..|before| + i] == before + ops[..i];
      match ops[i]
      case Alloc =>
        virtualQubits' := virtualQubits' + 1;
        if measured' == 0 {
          physicalQubits' := physicalQubits' + 1;
        } else {
          measured' := measured' - 1;
        }
      case Measure(_) =>
        measured' := measured' + 1;
    }
    assert ops[..|ops|] == ops;
  }

  /** The predicted number of qubits is the peak, and is the number of different qubits the allocator hands out. */
  lemma {:induction false} CountIsPeak(trace: seq<Event>)
    requires MeasuresHeld(trace)
    ensures Count(trace).physicalQubits == Peak(trace) && Count(trace).measured == Peak(trace) - HeldCount(trace)
    ensures Count(trace).virtualQubits == |After(trace).ids|
  {
    if trace != [] {
      CountIsPeak(trace[..|trace| - 1]);
      LiveIsHeldCount(trace);
    }
  }

  lemma PredictionMatchesAllocator(trace: seq<Event>)
    requires MeasuresHeld(trace) && Count(trace).physicalQubits <= 16
    ensures (set id | id in After(trace).ids) == Below(Count(trace).physicalQubits)
    ensures |set id | id in After(trace).ids| == Count(trace).physicalQubits
  {
    CountIsPeak(trace);
    AllocatorIsCompact(trace);
  }
}
