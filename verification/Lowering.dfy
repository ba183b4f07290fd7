/** Lowering of qubit values, each used at most once, to qubit cells that the gates change in place. */
module Lowering {
  import opened Wrappers

  type Value = nat
  type Cell = nat

  datatype Kind1 = RotX | RotY | RotZ | RotXInt | RotYInt | RotZInt | Hadamard | PauliX | PauliY | PauliZ
  datatype Kind2 = Cnot | Cz | CrotX | CrotXInt

  /** An operation on values. `Classical` stands for arithmetic and messages. */
  datatype Op =
    | NewQubit(out: Value)
    | Eprs(remote: nat, out: Value)
    | EprsMeasure(remote: nat, outcome: Value)
    | Gate1(k1: Kind1, args: seq<Value>, qin: Value, qout: Value)
    | Gate2(k2: Kind2, args: seq<Value>, qin0: Value, qin1: Value, qout0: Value, qout1: Value)
    | Measure(qin: Value, outcome: Value)
    | Classical(id: nat, args: seq<Value>, result: Value)

  /** An operation on cells; qubit results are gone. */
  datatype CellOp =
    | QAlloc(cell: Cell)
    | Init(cell: Cell)
    | EprsInto(cell: Cell, remote: nat)
    | EprsMeasureInto(cell: Cell, remote: nat, outcome: Value)
    | Turn1(k1: Kind1, args: seq<Value>, cell: Cell)
    | Turn2(k2: Kind2, args: seq<Value>, cell0: Cell, cell1: Cell)
    | MeasureCell(cell: Cell, outcome: Value)
    | Compute(id: nat, args: seq<Value>, result: Value)

  function QubitsIn(op: Op): seq<Value> {
    match op
    case Gate1(_, _, qin, _) => [qin]
    case Gate2(_, _, qin0, qin1, _, _) => [qin0, qin1]
    case Measure(qin, _) => [qin]
    case _ => []
  }

  function QubitsOut(op: Op): seq<Value> {
    match op
    case NewQubit(out) => [out]
    case Eprs(_, out) => [out]
    case Gate1(_, _, _, qout) => [qout]
    case Gate2(_, _, _, _, qout0, qout1) => [qout0, qout1]
    case _ => []
  }

  function ClassicalIn(op: Op): seq<Value> {
    if op.Gate1? || op.Gate2? || op.Classical? then op.args else []
  }

  function ClassicalOut(op: Op): seq<Value> {
    if op.EprsMeasure? || op.Measure? then [op.outcome] else if op.Classical? then [op.result] else []
  }

  function Elements(vs: seq<Value>): set<Value> {
    set v | v in vs
  }

  predicate Fits(op: Op, qubits: set<Value>, bits: set<Value>) {
    && Elements(QubitsIn(op)) <= qubits && Elements(ClassicalIn(op)) <= bits
    && Elements(QubitsOut(op) + ClassicalOut(op)) !! qubits + bits
    && (op.Gate2? ==> op.qout0 != op.qout1)
  }

  /** Operands are defined, and results are new: static single assignment. */
  predicate Typed(p: seq<Op>, qubits: set<Value>, bits: set<Value>) {
    p == [] || (Fits(p[0], qubits, bits)
                && Typed(p[1..], qubits + Elements(QubitsOut(p[0])), bits + Elements(ClassicalOut(p[0]))))
  }

  function Count(vs: seq<Value>, v: Value): nat {
    if vs == [] then 0 else (if vs[0] == v then 1 else 0) + Count(vs[1..], v)
  }

  /** The number of uses of a qubit value. */
  function Uses(p: seq<Op>, v: Value): nat {
    if p == [] then 0 else Count(QubitsIn(p[0]), v) + Uses(p[1..], v)
  }

  ghost predicate Linear(p: seq<Op>) {
    forall v: Value :: Uses(p, v) <= 1
  }

  // ---------- meaning ----------

  /** An interpretation over qubit contents `Q` and everything else, `W`, which every operation may read and change. */
  datatype Interpretation<!Q, !W> = Interpretation(
    create: W -> (Q, W), eprs: (nat, W) -> (Q, W), eprsMeasure: (nat, W) -> (int, W),
    gate1: (Kind1, seq<int>, Q, W) -> (Q, W), gate2: (Kind2, seq<int>, Q, Q, W) -> (Q, Q, W),
    measure: (Q, W) -> (int, W), classical: (nat, seq<int>, W) -> (int, W))

  datatype ValueState<Q, W> = ValueState(qubits: map<Value, Q>, bits: map<Value, int>, world: W)

  /** A cell that is allocated but holds no qubit maps to `None`. */
  datatype CellState<Q, W> = CellState(cells: map<Cell, Option<Q>>, bits: map<Value, int>, world: W)

  function Read(bits: map<Value, int>, args: seq<Value>): seq<int>
    requires forall k :: 0 <= k < |args| ==> args[k] in bits
  {
    seq(|args|, k requires 0 <= k < |args| => bits[args[k]])
  }

  predicate Known(bits: map<Value, int>, args: seq<Value>) {
    forall k :: 0 <= k < |args| ==> args[k] in bits
  }

  /** One operation on values; `None` when an operand is missing. */
  function Step<Q, W>(m: Interpretation<Q, W>, op: Op, s: ValueState<Q, W>): Option<ValueState<Q, W>> {
    if !Known(s.bits, ClassicalIn(op)) || exists k :: 0 <= k < |QubitsIn(op)| && QubitsIn(op)[k] !in s.qubits then None
    else
      match op
      case NewQubit(out) => var (q, w) := m.create(s.world); Some(s.(qubits := s.qubits[out := q], world := w))
      case Eprs(remote, out) => var (q, w) := m.eprs(remote, s.world); Some(s.(qubits := s.qubits[out := q], world := w))
      case EprsMeasure(remote, outcome) => var (b, w) := m.eprsMeasure(remote, s.world); Some(s.(bits := s.bits[outcome := b], world := w))
      case Gate1(kind, args, qin, qout) =>
        assert QubitsIn(op)[0] == qin;
        var (q, w) := m.gate1(kind, Read(s.bits, args), s.qubits[qin], s.world);
        Some(s.(qubits := s.qubits[qout := q], world := w))
      case Gate2(kind, args, qin0, qin1, qout0, qout1) =>
        assert QubitsIn(op)[0] == qin0 && QubitsIn(op)[1] == qin1;
        var (q0, q1, w) := m.gate2(kind, Read(s.bits, args), s.qubits[qin0], s.qubits[qin1], s.world);
        Some(s.(qubits := s.qubits[qout0 := q0][qout1 := q1], world := w))
      case Measure(qin, outcome) =>
        assert QubitsIn(op)[0] == qin;
        var (b, w) := m.measure(s.qubits[qin], s.world);
        Some(s.(bits := s.bits[outcome := b], world := w))
      case Classical(id, args, result) =>
        var (b, w) := m.classical(id, Read(s.bits, args), s.world);
        Some(s.(bits := s.bits[result := b], world := w))
  }

  function Run<Q, W>(m: Interpretation<Q, W>, p: seq<Op>, s: ValueState<Q, W>): Option<ValueState<Q, W>> {
    if p == [] then Some(s)
    else match Step(m, p[0], s)
         case None => None
         case Some(t) => Run(m, p[1..], t)
  }

  predicate Holds<Q, W>(s: CellState<Q, W>, cell: Cell) {
    cell in s.cells && s.cells[cell].Some?
  }

  /** One operation on cells; `None` when a cell is allocated twice, or used while it holds no qubit. */
  function CellStep<Q, W>(m: Interpretation<Q, W>, op: CellOp, s: CellState<Q, W>): Option<CellState<Q, W>> {
    match op
    case QAlloc(cell) => if cell in s.cells then None else Some(s.(cells := s.cells[cell := None]))
    case Init(cell) =>
      if cell !in s.cells then None
      else var (q, w) := m.create(s.world); Some(s.(cells := s.cells[cell := Some(q)], world := w))
    case EprsInto(cell, remote) =>
      if cell !in s.cells then None
      else var (q, w) := m.eprs(remote, s.world); Some(s.(cells := s.cells[cell := Some(q)], world := w))
    case EprsMeasureInto(cell, remote, outcome) =>
      if cell !in s.cells then None
      else var (b, w) := m.eprsMeasure(remote, s.world); Some(s.(bits := s.bits[outcome := b], world := w))
    case Turn1(kind, args, cell) =>
      if !Holds(s, cell) || !Known(s.bits, args) then None
      else
        var (q, w) := m.gate1(kind, Read(s.bits, args), s.cells[cell].value, s.world);
        Some(s.(cells := s.cells[cell := Some(q)], world := w))
    case Turn2(kind, args, cell0, cell1) =>
      if !Holds(s, cell0) || !Holds(s, cell1) || !Known(s.bits, args) then None
      else
        var (q0, q1, w) := m.gate2(kind, Read(s.bits, args), s.cells[cell0].value, s.cells[cell1].value, s.world);
        Some(s.(cells := s.cells[cell0 := Some(q0)][cell1 := Some(q1)], world := w))
    case MeasureCell(cell, outcome) =>
      if !Holds(s, cell) then None
      else
        var (b, w) := m.measure(s.cells[cell].value, s.world);
        Some(s.(cells := s.cells[cell := None], bits := s.bits[outcome := b], world := w))
    case Compute(id, args, result) =>
      if !Known(s.bits, args) then None
      else var (b, w) := m.classical(id, Read(s.bits, args), s.world); Some(s.(bits := s.bits[result := b], world := w))
  }

  function CellRun<Q, W>(m: Interpretation<Q, W>, p: seq<CellOp>, s: CellState<Q, W>): Option<CellState<Q, W>> {
    if p == [] then Some(s)
    else match CellStep(m, p[0], s)
         case None => None
         case Some(t) => CellRun(m, p[1..], t)
  }

  // ---------- the lowering ----------

  /** The cell that now stands for each qubit value, and the number of cells allocated so far. */
  datatype Mapping = Mapping(next: nat, cellOf: map<Value, Cell>)

  function Unmapped(): (ctx: Mapping)
    ensures ctx.cellOf.Keys == {}
  {
    Mapping(0, map[])
  }

  predicate Covers(ctx: Mapping, op: Op) {
    forall k :: 0 <= k < |QubitsIn(op)| ==> QubitsIn(op)[k] in ctx.cellOf
  }

  /** Creation allocates a cell first; a gate acts on the cells of its operands, which then stand for its results. */
  function LowerOp(op: Op, ctx: Mapping): (r: (seq<CellOp>, Mapping))
    requires Covers(ctx, op)
    ensures r.1.cellOf.Keys == ctx.cellOf.Keys + Elements(QubitsOut(op))
  {
    match op
    case NewQubit(out) => ([QAlloc(ctx.next), Init(ctx.next)], Mapping(ctx.next + 1, ctx.cellOf[out := ctx.next]))
    case Eprs(remote, out) => ([QAlloc(ctx.next), EprsInto(ctx.next, remote)], Mapping(ctx.next + 1, ctx.cellOf[out := ctx.next]))
    case EprsMeasure(remote, outcome) =>
      ([QAlloc(ctx.next), EprsMeasureInto(ctx.next, remote, outcome)], ctx.(next := ctx.next + 1))
    case Gate1(kind, args, qin, qout) =>
      assert QubitsIn(op)[0] == qin;
      ([Turn1(kind, args, ctx.cellOf[qin])], ctx.(cellOf := ctx.cellOf[qout := ctx.cellOf[qin]]))
    case Gate2(kind, args, qin0, qin1, qout0, qout1) =>
      assert QubitsIn(op)[0] == qin0 && QubitsIn(op)[1] == qin1;
      ([Turn2(kind, args, ctx.cellOf[qin0], ctx.cellOf[qin1])],
       ctx.(cellOf := ctx.cellOf[qout0 := ctx.cellOf[qin0]][qout1 := ctx.cellOf[qin1]]))
    case Measure(qin, outcome) =>
      assert QubitsIn(op)[0] == qin;
      ([MeasureCell(ctx.cellOf[qin], outcome)], ctx)
    case Classical(id, args, result) => ([Compute(id, args, result)], ctx)
  }

  function Lower(p: seq<Op>, ctx: Mapping, bits: set<Value>): (seq<CellOp>, Mapping)
    requires Typed(p, ctx.cellOf.Keys, bits)
    decreases |p|
  {
    if p == [] then ([], ctx)
    else
      assert Covers(ctx, p[0]) by {
        assert forall k :: 0 <= k < |QubitsIn(p[0])| ==> QubitsIn(p[0])[k] in Elements(QubitsIn(p[0]));
      }
      var (head, ctx') := LowerOp(p[0], ctx);
      var (rest, end) := Lower(p[1..], ctx', bits + Elements(ClassicalOut(p[0])));
      (head + rest, end)
  }

  // ---------- the simulation ----------

  ghost predicate InItsCell<Q, W>(ctx: Mapping, h: ValueState<Q, W>, c: CellState<Q, W>, v: Value) {
    v in h.qubits && v in ctx.cellOf && ctx.cellOf[v] in c.cells && c.cells[ctx.cellOf[v]] == Some(h.qubits[v])
  }

  /** Worlds and classical values agree; every live qubit value is the content of its own cell. */
  ghost predicate Related<Q, W>(live: set<Value>, ctx: Mapping, h: ValueState<Q, W>, c: CellState<Q, W>) {
    && h.world == c.world && h.bits == c.bits
    && (forall v :: v in live ==> InItsCell(ctx, h, c, v))
    && (forall u, v :: u in live && v in live && u in ctx.cellOf && v in ctx.cellOf && ctx.cellOf[u] == ctx.cellOf[v] ==> u == v)
    && (forall k :: k in c.cells ==> k < ctx.next)
  }

  /** What an operation leaves live. */
  function LiveAfter(op: Op, live: set<Value>): set<Value> {
    live - Elements(QubitsIn(op)) + Elements(QubitsOut(op))
  }

  ghost predicate Usable<Q, W>(op: Op, live: set<Value>, ctx: Mapping, h: ValueState<Q, W>) {
    && Elements(QubitsIn(op)) <= live && Known(h.bits, ClassicalIn(op)) && Covers(ctx, op)
    && Elements(QubitsOut(op)) !! live && (op.Gate2? ==> op.qin0 != op.qin1 && op.qout0 != op.qout1)
  }

  lemma CellRunOne<Q, W>(m: Interpretation<Q, W>, op: CellOp, s: CellState<Q, W>)
    ensures CellRun(m, [op], s) == CellStep(m, op, s)
  {
    assert [op][1..] == [];
  }

  lemma CellRunTwo<Q, W>(m: Interpretation<Q, W>, a: CellOp, b: CellOp, s: CellState<Q, W>)
    requires CellStep(m, a, s).Some?
    ensures CellRun(m, [a, b], s) == CellStep(m, b, CellStep(m, a, s).value)
  {
    assert [a, b][1..] == [b];
    CellRunOne(m, b, CellStep(m, a, s).value);
  }

  lemma OperandsLive<Q, W>(op: Op, live: set<Value>, ctx: Mapping, h: ValueState<Q, W>, c: CellState<Q, W>)
    requires Related(live, ctx, h, c) && Usable(op, live, ctx, h)
    ensures forall k :: 0 <= k < |QubitsIn(op)| ==> QubitsIn(op)[k] in live && InItsCell(ctx, h, c, QubitsIn(op)[k])
  {
    assert forall k :: 0 <= k < |QubitsIn(op)| ==> QubitsIn(op)[k] in Elements(QubitsIn(op));
  }

  ghost predicate Simulates<Q, W>(m: Interpretation<Q, W>, op: Op, live: set<Value>, ctx: Mapping, h: ValueState<Q, W>, c: CellState<Q, W>)
    requires Covers(ctx, op)
  {
    && Step(m, op, h).Some? && CellRun(m, LowerOp(op, ctx).0, c).Some?
    && Related(LiveAfter(op, live), LowerOp(op, ctx).1, Step(m, op, h).value, CellRun(m, LowerOp(op, ctx).0, c).value)
  }

  lemma NewCellRelated<Q, W>(live: set<Value>, ctx: Mapping, h: ValueState<Q, W>, c: CellState<Q, W>, out: Value, q: Q, w: W)
    requires Related(live, ctx, h, c) && out !in live
    ensures Related(live + {out}, Mapping(ctx.next + 1, ctx.cellOf[out := ctx.next]),
                    h.(qubits := h.qubits[out := q], world := w), c.(cells := c.cells[ctx.next := Some(q)], world := w))
  {
    assert forall v :: v in live ==> InItsCell(ctx, h, c, v);
  }

  lemma CreationSimulates<Q, W>(m: Interpretation<Q, W>, op: Op, live: set<Value>, ctx: Mapping, h: ValueState<Q, W>, c: CellState<Q, W>)
    requires op.NewQubit? || op.Eprs?
    requires Related(live, ctx, h, c) && Usable(op, live, ctx, h)
    ensures Simulates(m, op, live, ctx, h, c)
  {
    var ops := LowerOp(op, ctx).0;
    assert ctx.next !in c.cells;
    CellRunTwo(m, ops[0], ops[1], c);
    var (q, w) := if op.NewQubit? then m.create(h.world) else m.eprs(op.remote, h.world);
    NewCellRelated(live, ctx, h, c, op.out, q, w);
    assert c.cells[ctx.next := None][ctx.next := Some(q)] == c.cells[ctx.next := Some(q)];
    assert LiveAfter(op, live) == live + {op.out};
  }

  lemma RequestSimulates<Q, W>(m: Interpretation<Q, W>, op: Op, live: set<Value>, ctx: Mapping, h: ValueState<Q, W>, c: CellState<Q, W>)
    requires op.EprsMeasure? && Related(live, ctx, h, c) && Usable(op, live, ctx, h)
    ensures Simulates(m, op, live, ctx, h, c)
  {
    var ops := LowerOp(op, ctx).0;
    assert ctx.next !in c.cells;
    CellRunTwo(m, ops[0], ops[1], c);
    assert LiveAfter(op, live) == live;
  }

  lemma Gate1Simulates<Q, W>(m: Interpretation<Q, W>, op: Op, live: set<Value>, ctx: Mapping, h: ValueState<Q, W>, c: CellState<Q, W>)
    requires op.Gate1? && Related(live, ctx, h, c) && Usable(op, live, ctx, h)
    ensures Simulates(m, op, live, ctx, h, c)
  {
    OperandsLive(op, live, ctx, h, c);
    assert QubitsIn(op)[0] == op.qin;
    CellRunOne(m, LowerOp(op, ctx).0[0], c);
  }

  lemma Gate2Runs<Q, W>(m: Interpretation<Q, W>, op: Op, ctx: Mapping, h: ValueState<Q, W>, c: CellState<Q, W>)
    requires op.Gate2? && Covers(ctx, op) && Known(h.bits, op.args) && c.bits == h.bits && c.world == h.world
    requires InItsCell(ctx, h, c, op.qin0) && InItsCell(ctx, h, c, op.qin1)
    ensures var r := m.gate2(op.k2, Read(h.bits, op.args), h.qubits[op.qin0], h.qubits[op.qin1], h.world);
            var c0, c1 := ctx.cellOf[op.qin0], ctx.cellOf[op.qin1];
            && Step(m, op, h) == Some(h.(qubits := h.qubits[op.qout0 := r.0][op.qout1 := r.1], world := r.2))
            && CellRun(m, LowerOp(op, ctx).0, c) == Some(c.(cells := c.cells[c0 := Some(r.0)][c1 := Some(r.1)], world := r.2))
  {
    assert QubitsIn(op)[0] == op.qin0 && QubitsIn(op)[1] == op.qin1;
    CellRunOne(m, LowerOp(op, ctx).0[0], c);
  }

  /** Two values are consumed, and their cells stand for two new ones. */
  lemma TwoCellsRelated<Q, W>(live: set<Value>, ctx: Mapping, h: ValueState<Q, W>, c: CellState<Q, W>,
                              in0: Value, in1: Value, out0: Value, out1: Value, q0: Q, q1: Q, w: W)
    requires Related(live, ctx, h, c) && in0 in live && in1 in live && in0 != in1 && out0 !in live && out1 !in live && out0 != out1
    ensures in0 in ctx.cellOf && in1 in ctx.cellOf
    ensures var c0, c1 := ctx.cellOf[in0], ctx.cellOf[in1];
            Related(live - {in0, in1} + {out0, out1}, ctx.(cellOf := ctx.cellOf[out0 := c0][out1 := c1]),
                    h.(qubits := h.qubits[out0 := q0][out1 := q1], world := w), c.(cells := c.cells[c0 := Some(q0)][c1 := Some(q1)], world := w))
  {
    assert InItsCell(ctx, h, c, in0) && InItsCell(ctx, h, c, in1);
    assert forall v :: v in live ==> InItsCell(ctx, h, c, v);
  }

  lemma Gate2Simulates<Q, W>(m: Interpretation<Q, W>, op: Op, live: set<Value>, ctx: Mapping, h: ValueState<Q, W>, c: CellState<Q, W>)
    requires op.Gate2? && Related(live, ctx, h, c) && Usable(op, live, ctx, h)
    ensures Simulates(m, op, live, ctx, h, c)
  {
    OperandsLive(op, live, ctx, h, c);
    assert QubitsIn(op)[0] == op.qin0 && QubitsIn(op)[1] == op.qin1;
    Gate2Runs(m, op, ctx, h, c);
    var r := m.gate2(op.k2, Read(h.bits, op.args), h.qubits[op.qin0], h.qubits[op.qin1], h.world);
    TwoCellsRelated(live, ctx, h, c, op.qin0, op.qin1, op.qout0, op.qout1, r.0, r.1, r.2);
    assert LiveAfter(op, live) == live - {op.qin0, op.qin1} + {op.qout0, op.qout1};
  }

  lemma MeasureSimulates<Q, W>(m: Interpretation<Q, W>, op: Op, live: set<Value>, ctx: Mapping, h: ValueState<Q, W>, c: CellState<Q, W>)
    requires (op.Measure? || op.Classical?) && Related(live, ctx, h, c) && Usable(op, live, ctx, h)
    ensures Simulates(m, op, live, ctx, h, c)
  {
    OperandsLive(op, live, ctx, h, c);
    assert op.Measure? ==> QubitsIn(op)[0] == op.qin;
    CellRunOne(m, LowerOp(op, ctx).0[0], c);
  }

  lemma OpSimulates<Q, W>(m: Interpretation<Q, W>, op: Op, live: set<Value>, ctx: Mapping, h: ValueState<Q, W>, c: CellState<Q, W>)
    requires Related(live, ctx, h, c) && Usable(op, live, ctx, h)
    ensures Simulates(m, op, live, ctx, h, c)
  {
    match op
    case NewQubit(_) => CreationSimulates(m, op, live, ctx, h, c);
    case Eprs(_, _) => CreationSimulates(m, op, live, ctx, h, c);
    case EprsMeasure(_, _) => RequestSimulates(m, op, live, ctx, h, c);
    case Gate1(_, _, _, _) => Gate1Simulates(m, op, live, ctx, h, c);
    case Gate2(_, _, _, _, _, _) => Gate2Simulates(m, op, live, ctx, h, c);
    case Measure(_, _) => MeasureSimulates(m, op, live, ctx, h, c);
    case Classical(_, _, _) => MeasureSimulates(m, op, live, ctx, h, c);
  }

  lemma {:induction false} CellRunJoin<Q, W>(m: Interpretation<Q, W>, a: seq<CellOp>, b: seq<CellOp>, s: CellState<Q, W>)
    requires CellRun(m, a, s).Some?
    ensures CellRun(m, a + b, s) == CellRun(m, b, CellRun(m, a, s).value)
  {
    if a == [] {
      assert a + b == b;
    } else {
      assert (a + b)[1..] == a[1..] + b;
      CellRunJoin(m, a[1..], b, CellStep(m, a[0], s).value);
    }
  }

  lemma {:induction false} CountIn(vs: seq<Value>, v: Value)
    ensures Count(vs, v) > 0 <==> v in vs
  {
    if vs != [] {
      CountIn(vs[1..], v);
    }
  }

  /** The live values at the end: those that were live or have been made, and that no operation used. */
  function LiveEnd(p: seq<Op>, live: set<Value>): set<Value> {
    if p == [] then live else LiveEnd(p[1..], LiveAfter(p[0], live))
  }

  function Made(p: seq<Op>): set<Value> {
    if p == [] then {} else Elements(QubitsOut(p[0])) + Made(p[1..])
  }

  /** A program uses only live values, each at most once. */
  ghost predicate UsesOnce(p: seq<Op>, defined: set<Value>, live: set<Value>) {
    Linear(p) && live <= defined && forall v :: v in defined && v !in live ==> Uses(p, v) == 0
  }

  lemma UsesOnceStep(p: seq<Op>, defined: set<Value>, bits: set<Value>, live: set<Value>)
    requires p != [] && Typed(p, defined, bits) && UsesOnce(p, defined, live)
    ensures Elements(QubitsIn(p[0])) <= live && Elements(QubitsOut(p[0])) !! live
    ensures p[0].Gate2? ==> p[0].qin0 != p[0].qin1 && p[0].qout0 != p[0].qout1
    ensures UsesOnce(p[1..], defined + Elements(QubitsOut(p[0])), LiveAfter(p[0], live))
  {
    var op := p[0];
    forall v: Value ensures Uses(p, v) == Count(QubitsIn(op), v) + Uses(p[1..], v) && (Count(QubitsIn(op), v) > 0 <==> v in QubitsIn(op)) {
      CountIn(QubitsIn(op), v);
    }
    if op.Gate2? {
      assert QubitsIn(op)[1..] == [op.qin1];
      assert Count(QubitsIn(op), op.qin0) == 1 + Count([op.qin1], op.qin0);
      assert Count([op.qin1], op.qin0) == if op.qin1 == op.qin0 then 1 else 0;
      assert Uses(p, op.qin0) <= 1;
    }
    forall v | v in defined + Elements(QubitsOut(op)) && v !in LiveAfter(op, live) ensures Uses(p[1..], v) == 0 {
      assert v in live ==> v in QubitsIn(op);
      assert Uses(p, v) <= 1;
    }
    forall v: Value ensures Uses(p[1..], v) <= 1 {
      assert Uses(p, v) <= 1;
    }
  }

  lemma TypedIsUsable<Q, W>(op: Op, live: set<Value>, ctx: Mapping, h: ValueState<Q, W>)
    requires h.qubits.Keys == ctx.cellOf.Keys && Fits(op, h.qubits.Keys, h.bits.Keys)
    requires Elements(QubitsIn(op)) <= live && Elements(QubitsOut(op)) !! live && (op.Gate2? ==> op.qin0 != op.qin1 && op.qout0 != op.qout1)
    ensures Usable(op, live, ctx, h)
  {
    assert forall k :: 0 <= k < |QubitsIn(op)| ==> QubitsIn(op)[k] in Elements(QubitsIn(op));
    assert forall k :: 0 <= k < |ClassicalIn(op)| ==> ClassicalIn(op)[k] in Elements(ClassicalIn(op));
  }

  lemma StepDefines<Q, W>(m: Interpretation<Q, W>, op: Op, h: ValueState<Q, W>)
    requires Step(m, op, h).Some?
    ensures Step(m, op, h).value.qubits.Keys == h.qubits.Keys + Elements(QubitsOut(op))
    ensures Step(m, op, h).value.bits.Keys == h.bits.Keys + Elements(ClassicalOut(op))
  {
  }

  /** On a linear program the lowered form computes the same world and outcomes, and each qubit value that is still
      unused at the end is the content of its cell. */
  lemma {:induction false} LoweringSimulates<Q, W>(m: Interpretation<Q, W>, p: seq<Op>, live: set<Value>, ctx: Mapping, h: ValueState<Q, W>, c: CellState<Q, W>)
    requires Related(live, ctx, h, c) && h.qubits.Keys == ctx.cellOf.Keys
    requires Typed(p, h.qubits.Keys, h.bits.Keys) && UsesOnce(p, h.qubits.Keys, live)
    ensures var (ops, end) := Lower(p, ctx, h.bits.Keys);
            && Run(m, p, h).Some? && CellRun(m, ops, c).Some?
            && Related(LiveEnd(p, live), end, Run(m, p, h).value, CellRun(m, ops, c).value)
    decreases |p|
  {
    if p != [] {
      var op := p[0];
      UsesOnceStep(p, h.qubits.Keys, h.bits.Keys, live);
      TypedIsUsable(op, live, ctx, h);
      OpSimulates(m, op, live, ctx, h, c);
      var (head, ctx') := LowerOp(op, ctx);
      var h', c' := Step(m, op, h).value, CellRun(m, head, c).value;
      StepDefines(m, op, h);
      LoweringSimulates(m, p[1..], LiveAfter(op, live), ctx', h', c');
      CellRunJoin(m, head, Lower(p[1..], ctx', h'.bits.Keys).0, c);
    }
  }

  lemma {:induction false} MadeIsNew(p: seq<Op>, defined: set<Value>, bits: set<Value>)
    requires Typed(p, defined, bits)
    ensures Made(p) !! defined
    decreases |p|
  {
    if p != [] {
      assert Elements(QubitsOut(p[0])) <= Elements(QubitsOut(p[0]) + ClassicalOut(p[0]));
      MadeIsNew(p[1..], defined + Elements(QubitsOut(p[0])), bits + Elements(ClassicalOut(p[0])));
    }
  }

  /** The values that end live are those live at first or made, and never used. */
  lemma {:induction false} LiveEndIsUnused(p: seq<Op>, defined: set<Value>, bits: set<Value>, live: set<Value>)
    requires Typed(p, defined, bits) && UsesOnce(p, defined, live)
    ensures forall v: Value :: v in LiveEnd(p, live) <==> (v in live || v in Made(p)) && Uses(p, v) == 0
    decreases |p|
  {
    if p != [] {
      var op := p[0];
      var defined' := defined + Elements(QubitsOut(op));
      UsesOnceStep(p, defined, bits, live);
      LiveEndIsUnused(p[1..], defined', bits + Elements(ClassicalOut(op)), LiveAfter(op, live));
      forall v: Value ensures v in LiveEnd(p, live) <==> (v in live || v in Made(p)) && Uses(p, v) == 0 {
        CountIn(QubitsIn(op), v);
        if v in QubitsIn(op) {
          assert v in live;
          MadeIsNew(p[1..], defined', bits + Elements(ClassicalOut(op)));
        }
      }
    }
  }

  /** A program without arguments: from no qubits at all, every unused qubit value ends in its cell, and all outcomes agree. */
  lemma WholeProgram<Q, W>(m: Interpretation<Q, W>, p: seq<Op>, world: W)
    requires Typed(p, {}, {}) && Linear(p)
    ensures var (ops, end) := Lower(p, Unmapped(), {});
            var h, c := Run(m, p, ValueState(map[], map[], world)), CellRun(m, ops, CellState(map[], map[], world));
            && h.Some? && c.Some? && h.value.world == c.value.world && h.value.bits == c.value.bits
            && forall v :: v in Made(p) && Uses(p, v) == 0 ==> InItsCell(end, h.value, c.value, v)
  {
    var h0: ValueState<Q, W> := ValueState(map[], map[], world);
    var c0: CellState<Q, W> := CellState(map[], map[], world);
    assert h0.qubits.Keys == {} && h0.bits.Keys == {};
    LoweringSimulates(m, p, {}, Unmapped(), h0, c0);
    LiveEndIsUnused(p, {}, {}, {});
  }

  lemma {:induction false} TypedPrefix(p: seq<Op>, q: seq<Op>, defined: set<Value>, bits: set<Value>)
    requires Typed(p + q, defined, bits)
    ensures Typed(p, defined, bits) && forall v: Value :: Uses(p, v) <= Uses(p + q, v)
    decreases |p|
  {
    if p != [] {
      assert (p + q)[1..] == p[1..] + q && (p + q)[0] == p[0];
      TypedPrefix(p[1..], q, defined + Elements(QubitsOut(p[0])), bits + Elements(ClassicalOut(p[0])));
    }
  }

  /** The lowered form of a program starts with the lowered form of each of its prefixes. */
  lemma {:induction false} LowerPrefix(p: seq<Op>, q: seq<Op>, ctx: Mapping, bits: set<Value>)
    requires Typed(p + q, ctx.cellOf.Keys, bits) && Typed(p, ctx.cellOf.Keys, bits)
    ensures Lower(p, ctx, bits).0 <= Lower(p + q, ctx, bits).0
    decreases |p|
  {
    if p != [] {
      assert (p + q)[1..] == p[1..] + q && (p + q)[0] == p[0];
      assert Covers(ctx, p[0]) by {
        assert forall k :: 0 <= k < |QubitsIn(p[0])| ==> QubitsIn(p[0])[k] in Elements(QubitsIn(p[0]));
      }
      LowerPrefix(p[1..], q, LowerOp(p[0], ctx).1, bits + Elements(ClassicalOut(p[0])));
    }
  }

  /** At every step: after any number of operations, every qubit value made and not yet used is the content of its cell,
      and all outcomes so far agree. */
  lemma EveryStep<Q, W>(m: Interpretation<Q, W>, p: seq<Op>, k: nat, world: W)
    requires Typed(p, {}, {}) && Linear(p) && k <= |p|
    ensures Typed(p[..k], {}, {}) && Lower(p[..k], Unmapped(), {}).0 <= Lower(p, Unmapped(), {}).0
    ensures var (ops, ctx) := Lower(p[..k], Unmapped(), {});
            var h, c := Run(m, p[..k], ValueState(map[], map[], world)), CellRun(m, ops, CellState(map[], map[], world));
            && h.Some? && c.Some? && h.value.world == c.value.world && h.value.bits == c.value.bits
            && forall v :: v in Made(p[..k]) && Uses(p[..k], v) == 0 ==> InItsCell(ctx, h.value, c.value, v)
  {
    assert p == p[..k] + p[k..];
    TypedPrefix(p[..k], p[k..], {}, {});
    LowerPrefix(p[..k], p[k..], Unmapped(), {});
    forall v: Value ensures Uses(p[..k], v) <= 1 {
      assert Uses(p, v) <= 1;
    }
    WholeProgram(m, p[..k], world);
  }

  // ---------- the lowering pass ----------

  lemma LowerNext(p: seq<Op>, i: nat, ctx: Mapping, bits: set<Value>)
    requires i < |p| && Typed(p[i..], ctx.cellOf.Keys, bits)
    ensures Covers(ctx, p[i])
    ensures var (head, ctx') := LowerOp(p[i], ctx);
            var bits' := bits + Elements(ClassicalOut(p[i]));
            && Typed(p[i + 1..], ctx'.cellOf.Keys, bits')
            && Lower(p[i..], ctx, bits).0 == head + Lower(p[i + 1..], ctx', bits').0
            && Lower(p[i..], ctx, bits).1 == Lower(p[i + 1..], ctx', bits').1
  {
    assert p[i..][0] == p[i] && p[i..][1..] == p[i + 1..];
    forall k | 0 <= k < |QubitsIn(p[i])| ensures QubitsIn(p[i])[k] in ctx.cellOf {
      assert QubitsIn(p[i])[k] in Elements(QubitsIn(p[i]));
    }
  }

  /** What is left to lower from position `i`. */
  ghost function Rest(p: seq<Op>, i: nat, ctx: Mapping, bits: set<Value>): (seq<CellOp>, Mapping)
    requires i <= |p| && Typed(p[i..], ctx.cellOf.Keys, bits)
  {
    Lower(p[i..], ctx, bits)
  }

  lemma RestNext(p: seq<Op>, i: nat, ctx: Mapping, bits: set<Value>, ops: seq<CellOp>, whole: (seq<CellOp>, Mapping))
    returns (bits': set<Value>)
    requires i < |p| && Typed(p[i..], ctx.cellOf.Keys, bits)
    requires whole.0 == ops + Rest(p, i, ctx, bits).0 && whole.1 == Rest(p, i, ctx, bits).1
    ensures Covers(ctx, p[i])
    ensures var (head, ctx') := LowerOp(p[i], ctx);
            && Typed(p[i + 1..], ctx'.cellOf.Keys, bits')
            && whole.0 == (ops + head) + Rest(p, i + 1, ctx', bits').0 && whole.1 == Rest(p, i + 1, ctx', bits').1
  {
    LowerNext(p, i, ctx, bits);
    bits' := bits + Elements(ClassicalOut(p[i]));
    var head := LowerOp(p[i], ctx).0;
    assert ops + (head + Rest(p, i + 1, LowerOp(p[i], ctx).1, bits').0) == (ops + head) + Rest(p, i + 1, LowerOp(p[i], ctx).1, bits').0;
  }

  method LowerProgram(p: seq<Op>) returns (ops: seq<CellOp>, cellOf: map<Value, Cell>)
    requires Typed(p, {}, {})
    ensures ops == Lower(p, Unmapped(), {}).0 && cellOf == Lower(p, Unmapped(), {}).1.cellOf
  {
    ops := [];
    var ctx := Unmapped();
    ghost var bits: set<Value> := {};
    ghost var whole := Lower(p, Unmapped(), {});
    var i := 0;
    assert p[i..] == p;
    while i < |p|
      invariant 0 <= i <= |p| && Typed(p[i..], ctx.cellOf.Keys, bits)
      invariant whole.0 == ops + Rest(p, i, ctx, bits).0 && whole.1 == Rest(p, i, ctx, bits).1
    {
      bits := RestNext(p, i, ctx, bits, ops, whole);
      var (head, ctx') := LowerOp(p[i], ctx);
      ops, ctx, i := ops + head, ctx', i + 1;
    }
    assert p[i..] == [];
    cellOf := ctx.cellOf;
  }

  // ---------- the linearity check ----------

  /** The operations whose results the check looks at: no Pauli gate and no integer rotation is among them. */
  predicate IsQuantumOp(op: Op) {
    match op
    case NewQubit(_) => true
    case Eprs(_, _) => true
    case EprsMeasure(_, _) => true
    case Gate1(kind, _, _, _) => kind in {RotX, RotY, RotZ, Hadamard}
    case Gate2(kind, _, _, _, _, _) => kind in {Cnot, Cz, CrotX}
    case Measure(_, _) => true
    case Classical(_, _, _) => false
  }

  /** The gates whose results the check does not look at. */
  ghost predicate Overlooked(op: Op) {
    || (op.Gate1? && op.k1 in {PauliX, PauliY, PauliZ, RotXInt, RotYInt, RotZInt})
    || (op.Gate2? && op.k2 == CrotXInt)
  }

  lemma LooksAtTheRest(op: Op)
    ensures IsQuantumOp(op) <==> !op.Classical? && !Overlooked(op)
  {
    match op {
      case Gate1(kind, _, _, _) =>
        match kind {
          case RotX | RotY | RotZ | Hadamard =>
          case PauliX | PauliY | PauliZ | RotXInt | RotYInt | RotZInt =>
        }
      case Gate2(kind, _, _, _, _, _) =>
        match kind {
          case Cnot | Cz | CrotX =>
          case CrotXInt =>
        }
      case _ =>
    }
  }

  /** The number of uses of a value of either kind. */
  function AllUses(p: seq<Op>, v: Value): nat {
    if p == [] then 0 else Count(QubitsIn(p[0]), v) + Count(ClassicalIn(p[0]), v) + AllUses(p[1..], v)
  }

  predicate ResultsUsedOnce(p: seq<Op>, op: Op) {
    forall v :: v in QubitsOut(op) + ClassicalOut(op) ==> AllUses(p, v) <= 1
  }

  ghost predicate PassesCheck(p: seq<Op>) {
    forall i, v :: 0 <= i < |p| && !p[i].Classical? && !Overlooked(p[i]) && v in QubitsOut(p[i]) + ClassicalOut(p[i]) ==> AllUses(p, v) <= 1
  }

  method CheckLinear(p: seq<Op>) returns (accepted: bool)
    ensures accepted <==> PassesCheck(p)
  {
    accepted := true;
    for i := 0 to |p|
      invariant accepted <==> forall j :: 0 <= j < i && IsQuantumOp(p[j]) ==> ResultsUsedOnce(p, p[j])
    {
      if IsQuantumOp(p[i]) && !ResultsUsedOnce(p, p[i]) {
        accepted := false;
      }
    }
    forall i | 0 <= i < |p| ensures IsQuantumOp(p[i]) <==> !p[i].Classical? && !Overlooked(p[i]) {
      LooksAtTheRest(p[i]);
    }
  }

  /** The results that the check overlooks are used at most once. */
  ghost predicate OverlookedUsedOnce(p: seq<Op>) {
    forall i, v :: 0 <= i < |p| && Overlooked(p[i]) && v in QubitsOut(p[i]) ==> Uses(p, v) <= 1
  }

  lemma {:induction false} UsesBelowAll(p: seq<Op>, v: Value)
    ensures Uses(p, v) <= AllUses(p, v)
  {
    if p != [] {
      UsesBelowAll(p[1..], v);
    }
  }

  lemma {:induction false} UsedIsMade(p: seq<Op>, defined: set<Value>, bits: set<Value>, v: Value)
    requires Typed(p, defined, bits) && Uses(p, v) > 0 && v !in defined
    ensures exists i :: 0 <= i < |p| && v in QubitsOut(p[i])
    decreases |p|
  {
    CountIn(QubitsIn(p[0]), v);
    if v in QubitsOut(p[0]) {
      assert v in QubitsOut(p[0]);
    } else {
      UsedIsMade(p[1..], defined + Elements(QubitsOut(p[0])), bits + Elements(ClassicalOut(p[0])), v);
      var i :| 0 <= i < |p[1..]| && v in QubitsOut(p[1..][i]);
      assert v in QubitsOut(p[i + 1]);
    }
  }

  /** A program that passes the check is linear exactly when the overlooked results are used at most once. */
  lemma CheckedIsLinear(p: seq<Op>)
    requires Typed(p, {}, {}) && PassesCheck(p)
    ensures Linear(p) <==> OverlookedUsedOnce(p)
  {
    if OverlookedUsedOnce(p) {
      forall v: Value ensures Uses(p, v) <= 1 {
        if Uses(p, v) > 0 {
          UsedIsMade(p, {}, {}, v);
          var i :| 0 <= i < |p| && v in QubitsOut(p[i]);
          UsesBelowAll(p, v);
          if !Overlooked(p[i]) {
            assert v in QubitsOut(p[i]) + ClassicalOut(p[i]);
          }
        }
      }
    }
  }

  // ---------- what goes wrong with an overlooked result ----------

  /** In any state of the simulation, once a gate has taken `u` and made `v`, a second use of `u` goes wrong: a measurement
      of `u` reads the old value of `u` on values, and the value of `v` on cells. */
  lemma ReuseReadsSuccessor<Q, W>(m: Interpretation<Q, W>, k: Kind1, args: seq<Value>, u: Value, v: Value, outcome: Value,
                                  live: set<Value>, ctx: Mapping, h: ValueState<Q, W>, c: CellState<Q, W>)
    requires Related(live, ctx, h, c) && Usable(Gate1(k, args, u, v), live, ctx, h) && u != v
    ensures var op := Gate1(k, args, u, v);
            && Simulates(m, op, live, ctx, h, c)
            && var h', c', ctx' := Step(m, op, h).value, CellRun(m, LowerOp(op, ctx).0, c).value, LowerOp(op, ctx).1;
               && u in h.qubits && v in h'.qubits && Covers(ctx', Measure(u, outcome))
               && var onValues, onCells := Step(m, Measure(u, outcome), h'), CellRun(m, LowerOp(Measure(u, outcome), ctx').0, c');
                  && onValues.Some? && outcome in onValues.value.bits && onValues.value.bits[outcome] == m.measure(h.qubits[u], h'.world).0
                  && onCells.Some? && outcome in onCells.value.bits && onCells.value.bits[outcome] == m.measure(h'.qubits[v], h'.world).0
  {
    var op, measure := Gate1(k, args, u, v), Measure(u, outcome);
    Gate1Simulates(m, op, live, ctx, h, c);
    OperandsLive(op, live, ctx, h, c);
    assert QubitsIn(op)[0] == u && QubitsIn(measure)[0] == u;
    var c', ctx' := CellRun(m, LowerOp(op, ctx).0, c).value, LowerOp(op, ctx).1;
    assert ctx'.cellOf[u] == ctx'.cellOf[v] && InItsCell(ctx', Step(m, op, h).value, c', v);
    CellRunOne(m, MeasureCell(ctx'.cellOf[u], outcome), c');
  }

  /** The result of a Pauli gate is turned, and measured as it was before the turn: the check does not see it. */
  const OVERLOOKED := [NewQubit(0), Gate1(PauliX, [], 0, 1), Gate1(Hadamard, [], 1, 2), Measure(1, 3)]

  lemma UsesFront(op: Op, rest: seq<Op>, v: Value)
    ensures Uses([op] + rest, v) == Count(QubitsIn(op), v) + Uses(rest, v)
    ensures AllUses([op] + rest, v) == Count(QubitsIn(op), v) + Count(ClassicalIn(op), v) + AllUses(rest, v)
  {
    assert ([op] + rest)[1..] == rest;
  }

  lemma CountOfOne(x: Value, v: Value)
    ensures Count([x], v) == if x == v then 1 else 0
  {
    assert [x][1..] == [];
  }

  lemma OverlookedUses(v: Value)
    ensures AllUses(OVERLOOKED, v) == Uses(OVERLOOKED, v) == if v == 0 then 1 else if v == 1 then 2 else 0
  {
    var last, turn := [Measure(1, 3)] + [], [Gate1(Hadamard, [], 1, 2)] + ([Measure(1, 3)] + []);
    assert OVERLOOKED == [NewQubit(0)] + ([Gate1(PauliX, [], 0, 1)] + turn);
    CountOfOne(0, v);
    CountOfOne(1, v);
    UsesFront(Measure(1, 3), [], v);
    UsesFront(Gate1(Hadamard, [], 1, 2), last, v);
    UsesFront(Gate1(PauliX, [], 0, 1), turn, v);
    UsesFront(NewQubit(0), [Gate1(PauliX, [], 0, 1)] + turn, v);
  }

  lemma TypedFront(op: Op, rest: seq<Op>, qubits: set<Value>, qubits': set<Value>)
    requires Fits(op, qubits, {}) && ClassicalOut(op) == [] && qubits' == qubits + Elements(QubitsOut(op)) && Typed(rest, qubits', {})
    ensures Typed([op] + rest, qubits, {})
  {
    assert ([op] + rest)[1..] == rest && {} + Elements([]) == {};
  }

  lemma GateFits(k: Kind1, qin: Value, qout: Value, qubits: set<Value>, rest: seq<Op>)
    requires qin in qubits && qout !in qubits && Typed(rest, qubits + {qout}, {})
    ensures Typed([Gate1(k, [], qin, qout)] + rest, qubits, {})
  {
    assert Elements([qin]) == {qin} && Elements([qout] + []) == {qout};
    TypedFront(Gate1(k, [], qin, qout), rest, qubits, qubits + {qout});
  }

  lemma NewFits(out: Value, rest: seq<Op>)
    requires Typed(rest, {out}, {})
    ensures Typed([NewQubit(out)] + rest, {}, {})
  {
    TypedFront(NewQubit(out), rest, {}, {out});
  }

  lemma MeasureFits(qin: Value, outcome: Value, qubits: set<Value>)
    requires qin in qubits && outcome !in qubits
    ensures Typed([Measure(qin, outcome)], qubits, {})
  {
    assert [Measure(qin, outcome)][1..] == [];
  }

  lemma OverlookedIsTyped()
    ensures Typed(OVERLOOKED, {}, {})
  {
    var last, turn := [Measure(1, 3)], [Gate1(Hadamard, [], 1, 2)] + [Measure(1, 3)];
    assert OVERLOOKED == [NewQubit(0)] + ([Gate1(PauliX, [], 0, 1)] + turn);
    MeasureFits(1, 3, {0} + {1} + {2});
    GateFits(Hadamard, 1, 2, {0} + {1}, last);
    GateFits(PauliX, 0, 1, {0}, turn);
    NewFits(0, [Gate1(PauliX, [], 0, 1)] + turn);
  }

  /** The check accepts a program that is not linear. */
  lemma OverlookedPasses()
    ensures Typed(OVERLOOKED, {}, {}) && PassesCheck(OVERLOOKED) && !Linear(OVERLOOKED) && !OverlookedUsedOnce(OVERLOOKED)
  {
    forall i | 0 <= i < |OVERLOOKED| && IsQuantumOp(OVERLOOKED[i]) ensures ResultsUsedOnce(OVERLOOKED, OVERLOOKED[i]) {
      forall v | v in QubitsOut(OVERLOOKED[i]) + ClassicalOut(OVERLOOKED[i]) ensures AllUses(OVERLOOKED, v) <= 1 {
        OverlookedUses(v);
      }
    }
    OverlookedIsTyped();
    OverlookedUses(1);
    assert !IsQuantumOp(OVERLOOKED[1]) && 1 in QubitsOut(OVERLOOKED[1]);
  }
}
