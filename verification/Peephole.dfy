/** Rewriting of circuits by cancelling Hermitian pairs and merging integer rotations, under any interpretation of the gates. */
module Peephole {
  import opened Wrappers

  datatype Axis = X | Y | Z | ControlledX

  /** A gate acts on wires. `Rot(axis, wires, n, d)` turns by `n * pi / 2^d`; its last wire is the one that is turned. */
  datatype Gate =
    | Hermitian(kind: nat, wires: seq<nat>)
    | Rot(axis: Axis, wires: seq<nat>, n: int, d: int)
    | Other(id: nat, wires: seq<nat>)

  type Circuit = seq<Gate>

  const I32_MIN := -0x8000_0000
  const I32_MAX := 0x7fff_ffff

  predicate IsI32(x: int) {
    I32_MIN <= x <= I32_MAX
  }

  function Pow2(n: nat): (r: int)
    ensures r >= 1
  {
    if n == 0 then 1 else 2 * Pow2(n - 1)
  }

  predicate NoDuplicates(wires: seq<nat>) {
    forall i, j :: 0 <= i < j < |wires| ==> wires[i] != wires[j]
  }

  predicate ValidGate(g: Gate) {
    NoDuplicates(g.wires) && (g.Rot? ==> |g.wires| == (if g.axis == ControlledX then 2 else 1) && IsI32(g.n) && IsI32(g.d))
  }

  ghost predicate Valid(c: Circuit) {
    forall i :: 0 <= i < |c| ==> ValidGate(c[i])
  }

  // ---------- the rules ----------

  /** The operation that defines the value on wire `w` before position `j`: the last one that touches the wire. */
  function DefiningOp(c: Circuit, w: nat, j: nat): (i: Option<nat>)
    requires j <= |c|
    ensures i.Some? ==> i.value < j && w in c[i.value].wires && forall k :: i.value < k < j ==> w !in c[k].wires
    ensures i.None? ==> forall k :: 0 <= k < j ==> w !in c[k].wires
  {
    if j == 0 then None
    else if w in c[j - 1].wires then Some(j - 1)
    else DefiningOp(c, w, j - 1)
  }

  /** The place of the pair's first gate, when the gate at `j` is Hermitian and takes exactly its results. */
  function HermitianPair(c: Circuit, j: nat): Option<nat>
    requires j < |c|
  {
    var op := c[j];
    if !op.Hermitian? || op.wires == [] then None
    else
      var prev := DefiningOp(c, op.wires[0], j);
      if prev.None? then None
      else if !c[prev.value].Hermitian? || c[prev.value].kind != op.kind || c[prev.value].wires != op.wires then None
      else if forall k :: 0 <= k < |op.wires| ==> DefiningOp(c, op.wires[k], j) == prev then prev
      else None
  }

  function RemovePair(c: Circuit, i: nat, j: nat): Circuit
    requires i < j < |c|
  {
    c[..i] + c[i + 1..j] + c[j + 1..]
  }

  function CancelHermitianPair(c: Circuit, j: nat): Option<Circuit>
    requires j < |c|
  {
    var prev := HermitianPair(c, j);
    if prev.None? then None else Some(RemovePair(c, prev.value, j))
  }

  /** The sum of the angles `n1 / 2^d1` and `n2 / 2^d2` over the larger denominator, unless it leaves 32 bits. */
  function CombineIntRotAngles(n1: int, d1: int, n2: int, d2: int): Option<(int, int)> {
    if d1 < 0 || d2 < 0 then None
    else
      var d := if d1 >= d2 then d1 else d2;
      if d - d1 >= 31 || d - d2 >= 31 then None
      else
        var sum := n1 * Pow2(d - d1) + n2 * Pow2(d - d2);
        if IsI32(sum) then Some((sum, d)) else None
  }

  /** The rotation that the gate at `j` continues: same axis, same turned wire and, for the controlled one, same control. */
  function RotationBefore(c: Circuit, j: nat): Option<nat>
    requires j < |c| && Valid(c)
  {
    var op := c[j];
    if !op.Rot? then None
    else
      var prev := DefiningOp(c, op.wires[|op.wires| - 1], j);
      if prev.None? then None
      else
        var first := c[prev.value];
        if !first.Rot? || first.axis != op.axis then None
        else if op.axis == ControlledX && (DefiningOp(c, op.wires[0], j) != prev || first.wires[0] != op.wires[0]) then None
        else prev
  }

  function FoldIntRotationPair(c: Circuit, j: nat): Option<Circuit>
    requires j < |c| && Valid(c)
  {
    var prev := RotationBefore(c, j);
    if prev.None? then None
    else
      var angle := CombineIntRotAngles(c[prev.value].n, c[prev.value].d, c[j].n, c[j].d);
      if angle.None? then None
      else Some(c[..prev.value] + c[prev.value + 1..j] + [c[j].(n := angle.value.0, d := angle.value.1)] + c[j + 1..])
  }

  /** What a signed 32-bit integer keeps of a number. */
  function Wrap(x: int): int {
    (x - I32_MIN) % 0x1_0000_0000 + I32_MIN
  }

  /** The remainder of a division that truncates towards zero. */
  function Rem(x: int, m: int): int
    requires m != 0
  {
    if x >= 0 then x % m else -((-x) % m)
  }

  /** The numerator that differs by full turns and lies in the half-open turn around zero. */
  function Normal(n: int, d: nat): int {
    var mod := n % Pow2(d + 1);
    if mod > Pow2(d) then mod - Pow2(d + 1) else mod
  }

  lemma {:induction false} Pow2Add(a: nat, b: nat)
    ensures Pow2(a + b) == Pow2(a) * Pow2(b)
  {
    if a > 0 {
      Pow2Add(a - 1, b);
    }
  }

  lemma {:induction false} Pow2Bound(d: nat)
    requires d <= 31
    ensures Pow2(d) <= 0x8000_0000 && (d == 31 ==> Pow2(d) == 0x8000_0000) && (d <= 30 ==> Pow2(d) <= 0x4000_0000)
    decreases 31 - d
  {
    if d < 31 {
      Pow2Bound(d + 1);
    } else {
      assert Pow2(5) == 32 && Pow2(1) == 2;
      Pow2Add(5, 5);
      Pow2Add(10, 10);
      Pow2Add(20, 10);
      Pow2Add(30, 1);
    }
  }

  lemma PeriodIs(d: nat)
    requires d <= 30
    ensures Wrap(Pow2(d + 1)) == if d == 30 then I32_MIN else Pow2(d + 1)
  {
    Pow2Bound(d + 1);
  }

  function ReducedBy(n: int, period: int, half: int): int
    requires period != 0
  {
    var mod := Rem(Wrap(Rem(n, period) + period), period);
    if mod > half then Wrap(mod - period) else mod
  }

  /** The same as the code computes it, in wrapping 32-bit arithmetic. */
  function Reduced(n: int, d: nat): int
    requires d <= 30
  {
    PeriodIs(d);
    ReducedBy(n, Wrap(Pow2(d + 1)), Pow2(d))
  }

  /** The rotations that are normalised. */
  predicate Reducible(g: Gate) {
    g.Rot? && 0 <= g.d <= 30
  }

  predicate Canonical(g: Gate) {
    Reducible(g) ==> Reduced(g.n, g.d) == g.n
  }

  function NormalizeIntRotation(c: Circuit, j: nat): Option<Circuit>
    requires j < |c|
  {
    if !Reducible(c[j]) || Reduced(c[j].n, c[j].d) == c[j].n then None
    else Some(c[j := c[j].(n := Reduced(c[j].n, c[j].d))])
  }

  function EliminateZeroIntRotation(c: Circuit, j: nat): Option<Circuit>
    requires j < |c|
  {
    if c[j].Rot? && c[j].n == 0 then Some(c[..j] + c[j + 1..]) else None
  }

  ghost predicate RewritesAt(c: Circuit, c': Circuit, j: nat)
    requires j < |c| && Valid(c)
  {
    || CancelHermitianPair(c, j) == Some(c')
    || FoldIntRotationPair(c, j) == Some(c')
    || NormalizeIntRotation(c, j) == Some(c')
    || EliminateZeroIntRotation(c, j) == Some(c')
  }

  /** One rule applied at one place. */
  ghost predicate Rewrites(c: Circuit, c': Circuit) {
    Valid(c) && exists j :: 0 <= j < |c| && RewritesAt(c, c', j)
  }

  // ---------- meaning ----------

  /** An interpretation of gates on states `S`: rotations by an angle in units of pi, and the other gates. */
  datatype Interpretation<!S> = Interpretation(rot: (Axis, seq<nat>, real, S) -> S, other: (Gate, S) -> S)

  function Angle(n: int, d: int): real {
    if d >= 0 then n as real / Pow2(d) as real else (n * Pow2(-d)) as real
  }

  function Apply<S>(m: Interpretation<S>, g: Gate, s: S): S {
    if g.Rot? then m.rot(g.axis, g.wires, Angle(g.n, g.d), s) else m.other(g, s)
  }

  function Meaning<S>(m: Interpretation<S>, c: Circuit, s: S): S {
    if c == [] then s else Meaning(m, c[1..], Apply(m, c[0], s))
  }

  predicate Disjoint(a: Gate, b: Gate) {
    forall k :: 0 <= k < |a.wires| ==> a.wires[k] !in b.wires
  }

  ghost predicate DisjointCommute<S(!new)>(m: Interpretation<S>) {
    forall a: Gate, b: Gate, s: S :: !a.Other? && Disjoint(a, b) ==> Apply(m, b, Apply(m, a, s)) == Apply(m, a, Apply(m, b, s))
  }

  ghost predicate SelfInverse<S(!new)>(m: Interpretation<S>) {
    forall g: Gate, s: S :: g.Hermitian? ==> Apply(m, g, Apply(m, g, s)) == s
  }

  ghost predicate RotationsAdd<S(!new)>(m: Interpretation<S>) {
    && (forall a: Axis, w: seq<nat>, x: real, y: real, s: S :: m.rot(a, w, y, m.rot(a, w, x, s)) == m.rot(a, w, x + y, s))
    && (forall a: Axis, w: seq<nat>, s: S :: m.rot(a, w, 0.0, s) == s)
  }

  /** A single-qubit rotation by a full turn changes nothing. */
  ghost predicate FullTurns<S(!new)>(m: Interpretation<S>) {
    forall a: Axis, w: seq<nat>, x: real, s: S :: a != ControlledX ==> m.rot(a, w, x + 2.0, s) == m.rot(a, w, x, s)
  }

  ghost predicate Lawful<S(!new)>(m: Interpretation<S>) {
    DisjointCommute(m) && SelfInverse(m) && RotationsAdd(m) && FullTurns(m)
  }

  /** A controlled rotation by a full turn changes nothing either. */
  ghost predicate ControlledTurns<S(!new)>(m: Interpretation<S>) {
    forall w: seq<nat>, s: S :: |w| == 2 && NoDuplicates(w) ==> m.rot(ControlledX, w, 2.0, s) == s
  }

  ghost predicate SameMeaning<S(!new)>(m: Interpretation<S>, c: Circuit, c': Circuit) {
    forall s: S :: Meaning(m, c, s) == Meaning(m, c', s)
  }

  lemma {:induction false} MeaningJoin<S>(m: Interpretation<S>, a: Circuit, b: Circuit, s: S)
    ensures Meaning(m, a + b, s) == Meaning(m, b, Meaning(m, a, s))
  {
    if a == [] {
      assert a + b == b;
    } else {
      assert (a + b)[1..] == a[1..] + b;
      MeaningJoin(m, a[1..], b, Apply(m, a[0], s));
    }
  }

  /** A gate moves past gates on other wires. */
  lemma {:induction false} MovesPast<S(!new)>(m: Interpretation<S>, g: Gate, mid: Circuit, s: S)
    requires DisjointCommute(m) && !g.Other? && forall k :: 0 <= k < |mid| ==> Disjoint(g, mid[k])
    ensures Meaning(m, mid, Apply(m, g, s)) == Apply(m, g, Meaning(m, mid, s))
  {
    if mid != [] {
      assert Disjoint(g, mid[0]);
      MovesPast(m, g, mid[1..], Apply(m, mid[0], s));
    }
  }

  /** Two gates with nothing on their wires between them act as `merged`, put at the second place. */
  lemma MergePair<S(!new)>(m: Interpretation<S>, pre: Circuit, g: Gate, mid: Circuit, h: Gate, merged: Circuit, post: Circuit)
    requires DisjointCommute(m) && !g.Other? && forall k :: 0 <= k < |mid| ==> Disjoint(g, mid[k])
    requires forall s: S :: Apply(m, h, Apply(m, g, s)) == Meaning(m, merged, s)
    ensures SameMeaning(m, pre + [g] + mid + [h] + post, pre + mid + merged + post)
  {
    forall s: S ensures Meaning(m, pre + [g] + mid + [h] + post, s) == Meaning(m, pre + mid + merged + post, s) {
      var t := Meaning(m, pre, s);
      var u := Meaning(m, mid, t);
      MeaningJoin(m, pre, [g], s);
      assert [g][1..] == [] && [h][1..] == [];
      assert Meaning(m, [g], t) == Apply(m, g, t);
      MeaningJoin(m, pre + [g], mid, s);
      MovesPast(m, g, mid, t);
      MeaningJoin(m, pre + [g] + mid, [h], s);
      assert Meaning(m, [h], Apply(m, g, u)) == Apply(m, h, Apply(m, g, u));
      MeaningJoin(m, pre + [g] + mid + [h], post, s);
      MeaningJoin(m, pre, mid, s);
      MeaningJoin(m, pre + mid, merged, s);
      MeaningJoin(m, pre + mid + merged, post, s);
    }
  }

  // ---------- numbers ----------

  lemma RealProduct(a: int, b: int)
    ensures (a * b) as real == a as real * b as real
  {
  }

  lemma Cancels(x: real, p: real, q: real)
    requires p > 0.0 && q > 0.0
    ensures p * q > 0.0 && x / p == (x * q) / (p * q)
  {
    var r := x / p;
    assert x == r * p;
    assert x * q == r * (p * q);
  }

  lemma ScaledAngle(n: int, d: nat, up: nat)
    ensures Angle(n, d) == Angle(n * Pow2(up), d + up)
  {
    Pow2Add(d, up);
    RealProduct(Pow2(d), Pow2(up));
    RealProduct(n, Pow2(up));
    Cancels(n as real, Pow2(d) as real, Pow2(up) as real);
  }

  lemma SameDenominator(a: int, b: int, d: nat)
    ensures Angle(a, d) + Angle(b, d) == Angle(a + b, d)
  {
  }

  lemma SameAngle(a: int, b: int, d: nat)
    requires Angle(a, d) == Angle(b, d)
    ensures a == b
  {
    var p := Pow2(d) as real;
    assert a as real == (a as real / p) * p && b as real == (b as real / p) * p;
  }

  /** The combined angle is exactly the sum; refusal means a negative exponent, exponents 31 or more apart, or a sum
      that 32 bits cannot hold. */
  lemma CombinedIsSum(n1: int, d1: int, n2: int, d2: int)
    ensures match CombineIntRotAngles(n1, d1, n2, d2)
            case Some(r) => IsI32(r.0) && (r.1 == d1 || r.1 == d2) && Angle(r.0, r.1) == Angle(n1, d1) + Angle(n2, d2)
            case None => d1 < 0 || d2 < 0 || d1 - d2 >= 31 || d2 - d1 >= 31
                         || forall n: int, d: int :: (d == d1 || d == d2) && d >= d1 && d >= d2 && Angle(n, d) == Angle(n1, d1) + Angle(n2, d2) ==> !IsI32(n)
  {
    if d1 >= 0 && d2 >= 0 {
      var d := if d1 >= d2 then d1 else d2;
      var sum := n1 * Pow2(d - d1) + n2 * Pow2(d - d2);
      ScaledAngle(n1, d1, d - d1);
      ScaledAngle(n2, d2, d - d2);
      SameDenominator(n1 * Pow2(d - d1), n2 * Pow2(d - d2), d);
      forall n: int | Angle(n, d) == Angle(sum, d) ensures n == sum {
        SameAngle(n, sum, d);
      }
    }
  }

  lemma WholeTurns(turns: int, period: int)
    requires period > 0
    ensures turns > 0 ==> turns * period >= period
    ensures turns < 0 ==> turns * period <= -period
  {
  }

  lemma IsRemainder(x: int, m: int, q: int, r: int)
    requires m > 0 && x == q * m + r && 0 <= r < m
    ensures x % m == r
  {
    assert (q - x / m) * m == x % m - r;
    WholeTurns(q - x / m, m);
  }

  lemma QuotientAndRemainder(n: int, period: int, shift: int) returns (turns: int)
    requires period > 0 && (shift == 0 || shift == -1)
    ensures n % period + shift * period == n + turns * period
  {
    turns := shift - n / period;
    assert turns * period == shift * period - (n / period) * period;
  }

  /** The normal form differs by full turns and lies in the half-open turn around zero; a value there stays. */
  lemma NormalIsCongruent(n: int, d: nat) returns (turns: int)
    ensures Normal(n, d) == n + turns * Pow2(d + 1)
    ensures -Pow2(d) < Normal(n, d) <= Pow2(d)
    ensures -Pow2(d) < n <= Pow2(d) <==> Normal(n, d) == n
  {
    var period, half := Pow2(d + 1), Pow2(d);
    turns := QuotientAndRemainder(n, period, if n % period > half then -1 else 0);
    if -half < n < 0 {
      IsRemainder(n, period, -1, n + period);
    } else if 0 <= n <= half {
      IsRemainder(n, period, 0, n);
    }
  }

  /** The two remainders of the code give the one of mathematics. */
  lemma TwoRemainders(n: int, period: int)
    requires period > 0
    ensures 0 < Rem(n, period) + period < 2 * period && Rem(Rem(n, period) + period, period) == n % period
  {
    var r := Rem(n, period);
    if n >= 0 {
      IsRemainder(r + period, period, 1, r);
    } else if r == 0 {
      IsRemainder(n, period, -((-n) / period), 0);
    } else {
      var q := -((-n) / period) - 1;
      assert q * period == -((-n) / period) * period - period;
      IsRemainder(n, period, q, r + period);
      IsRemainder(r + period, period, 0, r + period);
    }
  }

  lemma ReducedByShort(n: int, period: int, half: int)
    requires IsI32(n) && 0 < period <= 0x4000_0000
    ensures ReducedBy(n, period, half) == if n % period > half then n % period - period else n % period
  {
    TwoRemainders(n, period);
    assert Wrap(Rem(n, period) + period) == Rem(n, period) + period;
  }

  /** Where 32 bits suffice, the code computes the normal form. */
  lemma NormalFits(n: int, d: nat)
    requires IsI32(n) && d <= 29
    ensures IsI32(Pow2(d + 1)) && IsI32(Rem(n, Pow2(d + 1)) + Pow2(d + 1)) && Reduced(n, d) == Normal(n, d)
  {
    Pow2Bound(d + 1);
    PeriodIs(d);
    TwoRemainders(n, Pow2(d + 1));
    ReducedByShort(n, Pow2(d + 1), Pow2(d));
  }

  /** With the least 32-bit number as period, positive numerators up to half a turn lose a full turn. */
  lemma ReducedByLeast(n: int)
    requires IsI32(n)
    ensures ReducedBy(n, I32_MIN, 0x4000_0000) ==
            if n > 0 then n - 0x8000_0000 else if n == I32_MIN then 0 else if n > -0x4000_0000 then n else n + 0x8000_0000
  {
    if n == I32_MIN {
    } else if n < 0 {
      assert Rem(n, I32_MIN) == n && Wrap(n + I32_MIN) == n + 0x8000_0000;
    } else {
      assert Rem(n, I32_MIN) == n && Wrap(n + I32_MIN) == n + I32_MIN;
    }
  }

  lemma NormalByHalf(n: int, d: nat)
    requires IsI32(n) && Pow2(d) == 0x4000_0000
    ensures Normal(n, d) ==
            if n > 0x4000_0000 then n - 0x8000_0000 else if n == I32_MIN then 0 else if n > -0x4000_0000 then n else n + 0x8000_0000
  {
    var t := NormalIsCongruent(n, d);
    if n <= -0x4000_0000 {
      IsRemainder(n, 0x8000_0000, -1, n + 0x8000_0000);
    }
  }

  /** What the code computes always differs by full turns. It is the normal form exactly when the exponent is below 30 or
      the numerator is not one of those between zero and half a turn, which are normal already. */
  lemma ReducedExactly(n: int, d: nat) returns (turns: int)
    requires IsI32(n) && d <= 30
    ensures Reduced(n, d) == n + turns * Pow2(d + 1) && IsI32(Reduced(n, d))
    ensures Reduced(n, d) == Normal(n, d) <==> !(d == 30 && 0 < n <= Pow2(d))
  {
    Pow2Bound(d);
    turns := NormalIsCongruent(n, d);
    if d == 30 {
      Pow2Bound(d + 1);
      PeriodIs(d);
      ReducedByLeast(n);
      NormalByHalf(n, d);
      if 0 < n <= Pow2(d) {
        turns := -1;
      }
    } else {
      NormalFits(n, d);
    }
  }

  /** Rotations of one axis on some wires may be changed by full turns. */
  ghost predicate TurnsWhole<S(!new)>(m: Interpretation<S>, a: Axis, w: seq<nat>) {
    forall x: real, s: S :: m.rot(a, w, x + 2.0, s) == m.rot(a, w, x, s)
  }

  lemma {:induction false} TurnsAway<S(!new)>(m: Interpretation<S>, a: Axis, w: seq<nat>, x: real, turns: int, s: S)
    requires TurnsWhole(m, a, w)
    ensures m.rot(a, w, x + 2.0 * turns as real, s) == m.rot(a, w, x, s)
    decreases if turns >= 0 then turns else -turns
  {
    if turns > 0 {
      TurnsAway(m, a, w, x, turns - 1, s);
      assert x + 2.0 * turns as real == (x + 2.0 * (turns - 1) as real) + 2.0;
    } else if turns < 0 {
      TurnsAway(m, a, w, x, turns + 1, s);
      assert x + 2.0 * (turns + 1) as real == (x + 2.0 * turns as real) + 2.0;
    }
  }

  lemma RotationsJoin<S(!new)>(m: Interpretation<S>, a: Axis, w: seq<nat>, x: real, y: real, s: S)
    requires RotationsAdd(m)
    ensures m.rot(a, w, y, m.rot(a, w, x, s)) == m.rot(a, w, x + y, s)
  {
  }

  lemma ControlledTurnsWhole<S(!new)>(m: Interpretation<S>, w: seq<nat>)
    requires RotationsAdd(m) && ControlledTurns(m) && |w| == 2 && NoDuplicates(w)
    ensures TurnsWhole(m, ControlledX, w)
  {
    forall x: real, s: S ensures m.rot(ControlledX, w, x + 2.0, s) == m.rot(ControlledX, w, x, s) {
      RotationsJoin(m, ControlledX, w, x, 2.0, s);
    }
  }

  lemma TurnsAreAngle(n: int, turns: int, d: nat)
    ensures Angle(n + turns * Pow2(d + 1), d) == Angle(n, d) + 2.0 * turns as real
  {
    var p := Pow2(d) as real;
    assert (turns * Pow2(d + 1)) as real == 2.0 * turns as real * p;
    assert (n as real + 2.0 * turns as real * p) / p == n as real / p + 2.0 * turns as real;
  }

  // ---------- every rule keeps the meaning ----------

  lemma SplitAt(c: Circuit, i: nat, j: nat)
    requires i < j < |c|
    ensures c == c[..i] + [c[i]] + c[i + 1..j] + [c[j]] + c[j + 1..]
  {
  }

  /** Nothing between a gate and the gate that takes all its results touches its wires. */
  lemma BetweenIsDisjoint(c: Circuit, i: nat, j: nat, mid: Circuit)
    requires i < j < |c| && mid == c[i + 1..j]
    requires forall k :: 0 <= k < |c[i].wires| ==> DefiningOp(c, c[i].wires[k], j) == Some(i)
    ensures forall k :: 0 <= k < |mid| ==> Disjoint(c[i], mid[k])
  {
    forall k | 0 <= k < |mid| ensures Disjoint(c[i], mid[k]) {
      assert mid[k] == c[i + 1 + k];
      forall w | 0 <= w < |c[i].wires| ensures c[i].wires[w] !in mid[k].wires {
        assert DefiningOp(c, c[i].wires[w], j) == Some(i);
      }
    }
  }

  lemma CancelKeepsMeaning<S(!new)>(m: Interpretation<S>, c: Circuit, j: nat)
    requires Lawful(m) && j < |c| && CancelHermitianPair(c, j).Some?
    ensures SameMeaning(m, c, CancelHermitianPair(c, j).value)
  {
    var i := HermitianPair(c, j).value;
    forall k | 0 <= k < |c[i].wires| ensures DefiningOp(c, c[i].wires[k], j) == Some(i) {
      assert DefiningOp(c, c[j].wires[k], j) == Some(i);
    }
    BetweenIsDisjoint(c, i, j, c[i + 1..j]);
    SplitAt(c, i, j);
    assert c[i] == c[j];
    MergePair(m, c[..i], c[i], c[i + 1..j], c[j], [], c[j + 1..]);
    assert c[..i] + c[i + 1..j] + [] + c[j + 1..] == RemovePair(c, i, j);
  }

  lemma FoldedWires(c: Circuit, j: nat)
    requires j < |c| && Valid(c) && RotationBefore(c, j).Some?
    ensures var i := RotationBefore(c, j).value;
            i < j && c[i].Rot? && c[i].axis == c[j].axis && c[i].wires == c[j].wires
            && forall k :: 0 <= k < |c[i].wires| ==> DefiningOp(c, c[i].wires[k], j) == Some(i)
  {
    var i := RotationBefore(c, j).value;
    assert ValidGate(c[i]) && ValidGate(c[j]);
    assert c[j].wires[|c[j].wires| - 1] in c[i].wires;
    if c[j].axis == ControlledX {
      assert c[j].wires[0] != c[j].wires[1];
      assert c[i].wires == [c[j].wires[0], c[j].wires[1]];
    } else {
      assert c[i].wires == [c[j].wires[0]];
    }
  }

  // ---------- when a rule applies ----------

  /** Gate `i` stands before gate `j`, and no gate between them touches a wire of gate `j`. */
  ghost predicate Adjoins(c: Circuit, i: nat, j: nat)
    requires j < |c|
  {
    i < j && forall k, w :: i < k < j && w in c[j].wires ==> w !in c[k].wires
  }

  lemma LastTouch(c: Circuit, w: nat, i: nat, j: nat)
    requires i < j <= |c|
    ensures DefiningOp(c, w, j) == Some(i) <==> w in c[i].wires && forall k :: i < k < j ==> w !in c[k].wires
  {
    if w in c[i].wires && forall k :: i < k < j ==> w !in c[k].wires {
      assert DefiningOp(c, w, j).Some?;
    }
  }

  lemma AdjoiningTouches(c: Circuit, i: nat, j: nat)
    requires j < |c| && Adjoins(c, i, j) && c[i].wires == c[j].wires
    ensures forall k :: 0 <= k < |c[j].wires| ==> DefiningOp(c, c[j].wires[k], j) == Some(i)
  {
    forall k | 0 <= k < |c[j].wires| ensures DefiningOp(c, c[j].wires[k], j) == Some(i) {
      assert c[j].wires[k] in c[j].wires;
      LastTouch(c, c[j].wires[k], i, j);
    }
  }

  lemma TouchesAdjoin(c: Circuit, i: nat, j: nat)
    requires i < j < |c| && forall k :: 0 <= k < |c[j].wires| ==> DefiningOp(c, c[j].wires[k], j) == Some(i)
    ensures Adjoins(c, i, j)
  {
    forall k, w | i < k < j && w in c[j].wires ensures w !in c[k].wires {
      var l :| 0 <= l < |c[j].wires| && c[j].wires[l] == w;
      LastTouch(c, w, i, j);
    }
  }

  /** The gates at `i` and `j` are equal, Hermitian, on some wires, and nothing between them touches these. */
  ghost predicate Cancel(c: Circuit, i: nat, j: nat)
    requires j < |c|
  {
    c[j].Hermitian? && c[j].wires != [] && Adjoins(c, i, j) && c[i] == c[j]
  }

  lemma CancelPair(c: Circuit, i: nat, j: nat)
    requires j < |c|
    ensures HermitianPair(c, j) == Some(i) <==> Cancel(c, i, j)
  {
    if Cancel(c, i, j) {
      AdjoiningTouches(c, i, j);
      assert DefiningOp(c, c[j].wires[0], j) == Some(i);
    }
    if HermitianPair(c, j) == Some(i) {
      TouchesAdjoin(c, i, j);
    }
  }

  /** Hermitian cancellation succeeds exactly when an equal gate adjoins, and then removes both. */
  lemma CancelExactly(c: Circuit, j: nat)
    requires j < |c|
    ensures CancelHermitianPair(c, j).Some? <==> exists i: nat :: Cancel(c, i, j)
    ensures forall i: nat :: Cancel(c, i, j) ==> CancelHermitianPair(c, j) == Some(c[..i] + c[i + 1..j] + c[j + 1..])
  {
    forall i: nat ensures HermitianPair(c, j) == Some(i) <==> Cancel(c, i, j) {
      CancelPair(c, i, j);
    }
  }

  /** The gates at `i` and `j` are rotations of one axis on the same wires, and nothing between them touches these. */
  ghost predicate Continue(c: Circuit, i: nat, j: nat)
    requires j < |c|
  {
    Adjoins(c, i, j) && c[i].Rot? && c[j].Rot? && c[i].axis == c[j].axis && c[i].wires == c[j].wires
  }

  lemma ContinuePair(c: Circuit, i: nat, j: nat)
    requires j < |c| && Valid(c)
    ensures RotationBefore(c, j) == Some(i) <==> Continue(c, i, j)
  {
    assert ValidGate(c[j]);
    if Continue(c, i, j) {
      AdjoiningTouches(c, i, j);
    }
    if RotationBefore(c, j) == Some(i) {
      FoldedWires(c, j);
      TouchesAdjoin(c, i, j);
    }
  }

  /** The angles add up to `n / 2^d` over the larger denominator, in 32 bits and with denominators less than 31 apart. */
  ghost predicate AddsTo(g: Gate, h: Gate, n: int, d: int)
    requires g.Rot? && h.Rot?
  {
    && 0 <= g.d <= d && 0 <= h.d <= d && (d == g.d || d == h.d) && d - g.d < 31 && d - h.d < 31
    && -0x8000_0000 <= n <= 0x7fff_ffff
    && n == g.n * Pow2(d - g.d) + h.n * Pow2(d - h.d)
  }

  lemma AddsExactly(g: Gate, h: Gate, n: int, d: int)
    requires g.Rot? && h.Rot?
    ensures CombineIntRotAngles(g.n, g.d, h.n, h.d) == Some((n, d)) <==> AddsTo(g, h, n, d)
  {
  }

  ghost predicate Folds(c: Circuit, i: nat, j: nat, n: int, d: int)
    requires j < |c|
  {
    Continue(c, i, j) && AddsTo(c[i], c[j], n, d)
  }

  lemma FoldPair(c: Circuit, i: nat, j: nat, n: int, d: int)
    requires j < |c| && Valid(c) && Folds(c, i, j, n, d)
    ensures FoldIntRotationPair(c, j) == Some(c[..i] + c[i + 1..j] + [Rot(c[j].axis, c[j].wires, n, d)] + c[j + 1..])
  {
    ContinuePair(c, i, j);
    AddsExactly(c[i], c[j], n, d);
    assert c[j].(n := n, d := d) == Rot(c[j].axis, c[j].wires, n, d);
  }

  /** Folding succeeds exactly when a rotation of the same axis and wires adjoins and the angles add up; it then leaves the
      sum at the second place. */
  lemma FoldExactly(c: Circuit, j: nat)
    requires j < |c| && Valid(c)
    ensures FoldIntRotationPair(c, j).Some? <==> exists i: nat, n, d :: Folds(c, i, j, n, d)
    ensures forall i: nat, n, d :: Folds(c, i, j, n, d) ==>
              FoldIntRotationPair(c, j) == Some(c[..i] + c[i + 1..j] + [Rot(c[j].axis, c[j].wires, n, d)] + c[j + 1..])
  {
    if FoldIntRotationPair(c, j).Some? {
      var i := RotationBefore(c, j).value;
      ContinuePair(c, i, j);
      var angle := CombineIntRotAngles(c[i].n, c[i].d, c[j].n, c[j].d).value;
      AddsExactly(c[i], c[j], angle.0, angle.1);
      assert Folds(c, i, j, angle.0, angle.1);
    }
    forall i: nat, n, d | Folds(c, i, j, n, d)
      ensures FoldIntRotationPair(c, j) == Some(c[..i] + c[i + 1..j] + [Rot(c[j].axis, c[j].wires, n, d)] + c[j + 1..])
    {
      FoldPair(c, i, j, n, d);
    }
  }

  /** The reduced numerator differs by full turns and lies in the half-open turn around zero; but at exponent 30 the
      numerators between zero and half a turn lose a full turn. */
  ghost predicate ReducesTo(n: int, d: nat, norm: int) {
    if d == 30 && 0 < n <= Pow2(d) then norm == n - 2 * Pow2(d)
    else -Pow2(d) < norm <= Pow2(d) && (norm - n) % Pow2(d + 1) == 0
  }

  /** The rotation at `j` has the reduced numerator now, and nothing else has changed. */
  ghost predicate Normalized(c: Circuit, j: nat, c': Circuit, norm: int)
    requires j < |c| && c[j].Rot? && c[j].d >= 0
  {
    ReducesTo(c[j].n, c[j].d, norm) && c' == c[j := Rot(c[j].axis, c[j].wires, norm, c[j].d)]
  }

  /** Normalisation succeeds exactly on rotations with an exponent from 0 to 30 whose numerator lies outside the turn
      around zero, or at exponent 30 above zero. */
  lemma NormalizeExactly(c: Circuit, j: nat)
    requires j < |c| && Valid(c)
    ensures NormalizeIntRotation(c, j).Some? <==>
              c[j].Rot? && 0 <= c[j].d <= 30 && (!(-Pow2(c[j].d) < c[j].n <= Pow2(c[j].d)) || (c[j].d == 30 && c[j].n > 0))
    ensures NormalizeIntRotation(c, j).Some? ==>
              exists norm :: Normalized(c, j, NormalizeIntRotation(c, j).value, norm)
  {
    assert ValidGate(c[j]);
    if Reducible(c[j]) {
      var turns := ReducedExactly(c[j].n, c[j].d);
      var t := NormalIsCongruent(c[j].n, c[j].d);
      Pow2Bound(c[j].d);
      Pow2Bound(c[j].d + 1);
      if c[j].d == 30 {
        PeriodIs(c[j].d);
        ReducedByLeast(c[j].n);
      }
      var norm := Reduced(c[j].n, c[j].d);
      IsRemainder(norm - c[j].n, Pow2(c[j].d + 1), turns, 0);
      assert c[j].(n := norm) == Rot(c[j].axis, c[j].wires, norm, c[j].d);
      if norm != c[j].n {
        assert Normalized(c, j, NormalizeIntRotation(c, j).value, norm);
      }
    }
  }

  lemma FoldedPair<S(!new)>(m: Interpretation<S>, g: Gate, h: Gate, f: Gate, s: S)
    requires RotationsAdd(m) && g.Rot? && h.Rot? && f.Rot? && g.axis == h.axis == f.axis && g.wires == h.wires == f.wires
    requires Angle(f.n, f.d) == Angle(g.n, g.d) + Angle(h.n, h.d)
    ensures Apply(m, h, Apply(m, g, s)) == Meaning(m, [f], s)
  {
    assert [f][1..] == [];
    assert Meaning(m, [f], s) == Apply(m, f, s);
  }

  lemma FoldKeepsMeaning<S(!new)>(m: Interpretation<S>, c: Circuit, j: nat)
    requires Lawful(m) && j < |c| && Valid(c) && FoldIntRotationPair(c, j).Some?
    ensures SameMeaning(m, c, FoldIntRotationPair(c, j).value)
  {
    var i := RotationBefore(c, j).value;
    FoldedWires(c, j);
    var g, h := c[i], c[j];
    CombinedIsSum(g.n, g.d, h.n, h.d);
    var angle := CombineIntRotAngles(g.n, g.d, h.n, h.d).value;
    var f := h.(n := angle.0, d := angle.1);
    BetweenIsDisjoint(c, i, j, c[i + 1..j]);
    SplitAt(c, i, j);
    forall s: S ensures Apply(m, h, Apply(m, g, s)) == Meaning(m, [f], s) {
      FoldedPair(m, g, h, f, s);
    }
    MergePair(m, c[..i], g, c[i + 1..j], h, [f], c[j + 1..]);
  }

  lemma ReplaceOne<S(!new)>(m: Interpretation<S>, c: Circuit, j: nat, with: Circuit)
    requires j < |c| && forall s: S :: Apply(m, c[j], s) == Meaning(m, with, s)
    ensures SameMeaning(m, c, c[..j] + with + c[j + 1..])
  {
    forall s: S ensures Meaning(m, c, s) == Meaning(m, c[..j] + with + c[j + 1..], s) {
      MeaningJoin(m, c[..j], c[j..], s);
      assert c == c[..j] + c[j..] && c[j..][1..] == c[j + 1..];
      MeaningJoin(m, c[..j], with, s);
      MeaningJoin(m, c[..j] + with, c[j + 1..], s);
    }
  }

  lemma MeaningOfOne<S>(m: Interpretation<S>, g: Gate, s: S)
    ensures Meaning(m, [g], s) == Apply(m, g, s)
  {
    assert [g][1..] == [];
  }

  lemma TurnedMeansSame<S(!new)>(m: Interpretation<S>, g: Gate, h: Gate, turns: int, s: S)
    requires g.Rot? && g.d >= 0 && h == Rot(g.axis, g.wires, g.n + turns * Pow2(g.d + 1), g.d) && TurnsWhole(m, g.axis, g.wires)
    ensures Apply(m, g, s) == Apply(m, h, s)
  {
    TurnsAreAngle(g.n, turns, g.d);
    TurnsAway(m, g.axis, g.wires, Angle(g.n, g.d), turns, s);
  }

  /** A rotation whose numerator is reduced means the same if its axis may be changed by full turns. */
  lemma ReducedMeansSame<S(!new)>(m: Interpretation<S>, g: Gate, s: S)
    requires ValidGate(g) && Reducible(g) && TurnsWhole(m, g.axis, g.wires)
    ensures Apply(m, g, s) == Meaning(m, [g.(n := Reduced(g.n, g.d))], s)
  {
    var h := g.(n := Reduced(g.n, g.d));
    var turns := ReducedExactly(g.n, g.d);
    MeaningOfOne(m, h, s);
    TurnedMeansSame(m, g, h, turns, s);
  }

  lemma NormalizeKeepsMeaning<S(!new)>(m: Interpretation<S>, c: Circuit, j: nat)
    requires Lawful(m) && Valid(c) && j < |c| && NormalizeIntRotation(c, j).Some?
    requires c[j].axis != ControlledX || ControlledTurns(m)
    ensures SameMeaning(m, c, NormalizeIntRotation(c, j).value)
  {
    var g := c[j].(n := Reduced(c[j].n, c[j].d));
    assert ValidGate(c[j]);
    if c[j].axis == ControlledX {
      ControlledTurnsWhole(m, c[j].wires);
    }
    forall s: S ensures Apply(m, c[j], s) == Meaning(m, [g], s) {
      ReducedMeansSame(m, c[j], s);
    }
    ReplaceOne(m, c, j, [g]);
    assert c[..j] + [g] + c[j + 1..] == c[j := g];
  }

  lemma EliminateKeepsMeaning<S(!new)>(m: Interpretation<S>, c: Circuit, j: nat)
    requires Lawful(m) && j < |c| && EliminateZeroIntRotation(c, j).Some?
    ensures SameMeaning(m, c, EliminateZeroIntRotation(c, j).value)
  {
    assert Angle(0, c[j].d) == 0.0;
    ReplaceOne(m, c, j, []);
    assert c[..j] + [] + c[j + 1..] == c[..j] + c[j + 1..];
  }

  /** The rewrite normalises a controlled rotation. */
  ghost predicate ReducesControlled(c: Circuit, c': Circuit) {
    exists j :: 0 <= j < |c| && c[j].Rot? && c[j].axis == ControlledX && NormalizeIntRotation(c, j) == Some(c')
  }

  /** One rewrite, whichever rule and wherever, keeps the meaning in every lawful interpretation; to normalise a
      controlled rotation, a controlled full turn must change nothing. */
  lemma RewriteKeepsMeaning<S(!new)>(m: Interpretation<S>, c: Circuit, c': Circuit)
    requires Lawful(m) && Rewrites(c, c') && (ControlledTurns(m) || !ReducesControlled(c, c'))
    ensures SameMeaning(m, c, c')
  {
    var j :| 0 <= j < |c| && RewritesAt(c, c', j);
    if CancelHermitianPair(c, j) == Some(c') {
      CancelKeepsMeaning(m, c, j);
    } else if FoldIntRotationPair(c, j) == Some(c') {
      FoldKeepsMeaning(m, c, j);
    } else if NormalizeIntRotation(c, j) == Some(c') {
      NormalizeKeepsMeaning(m, c, j);
    } else {
      EliminateKeepsMeaning(m, c, j);
    }
  }

  /** The controlled rotation by `n` half turns. */
  function Controlled(w: seq<nat>, n: int): Gate {
    Rot(ControlledX, w, n, 0)
  }

  lemma ReducesToZero(d: nat)
    requires d == 0
    ensures Reduced(2, d) == 0
  {
    assert Pow2(d) == 1 && Pow2(d + 1) == 2;
    NormalFits(2, d);
  }

  lemma FullTurnReduces(g: Gate, zero: Gate)
    requires g.Rot? && g.axis == ControlledX && g.n == 2 && g.d == 0 && zero == g.(n := 0)
    ensures NormalizeIntRotation([g], 0) == Some([zero]) && EliminateZeroIntRotation([zero], 0) == Some([])
    ensures ReducesControlled([g], [zero])
  {
    ReducesToZero(g.d);
    assert [g][0 := zero] == [zero];
    assert [zero][..0] + [zero][1..] == [];
    assert [g][0].axis == ControlledX;
  }

  lemma OneRewrites(g: Gate, c: Circuit)
    requires ValidGate(g) && (NormalizeIntRotation([g], 0) == Some(c) || EliminateZeroIntRotation([g], 0) == Some(c))
    ensures Rewrites([g], c)
  {
    assert Valid([g]) && RewritesAt([g], c, 0);
  }

  /** A controlled full turn is normalised to a rotation by zero, which is then dropped. */
  lemma FullTurnVanishes(w: seq<nat>)
    requires |w| == 2 && NoDuplicates(w)
    ensures Rewrites([Controlled(w, 2)], [Controlled(w, 0)]) && Rewrites([Controlled(w, 0)], [])
    ensures ReducesControlled([Controlled(w, 2)], [Controlled(w, 0)])
  {
    var g, zero := Controlled(w, 2), Controlled(w, 0);
    FullTurnReduces(g, zero);
    OneRewrites(g, [zero]);
    OneRewrites(zero, []);
  }

  /** Every rewrite of every circuit keeps the meaning. */
  ghost predicate AllKept<S(!new)>(m: Interpretation<S>) {
    forall c: Circuit, c': Circuit :: Rewrites(c, c') ==> SameMeaning(m, c, c')
  }

  lemma AngleOfHalfTurns(n: int, d: int)
    requires d == 0
    ensures Angle(n, d) == n as real
  {
  }

  lemma ControlledMeans<S(!new)>(m: Interpretation<S>, w: seq<nat>, n: int, s: S)
    ensures Meaning(m, [Controlled(w, n)], s) == m.rot(ControlledX, w, n as real, s)
  {
    MeaningOfOne(m, Controlled(w, n), s);
    AngleOfHalfTurns(n, 0);
  }

  lemma KeptAtOnce<S(!new)>(m: Interpretation<S>, c: Circuit, c': Circuit, s: S)
    requires AllKept(m) && Rewrites(c, c')
    ensures Meaning(m, c, s) == Meaning(m, c', s)
  {
    assert SameMeaning(m, c, c');
  }

  lemma TurnIsIdentity<S(!new)>(m: Interpretation<S>, w: seq<nat>, s: S)
    requires RotationsAdd(m) && AllKept(m) && |w| == 2 && NoDuplicates(w)
    ensures m.rot(ControlledX, w, 2.0, s) == s
  {
    FullTurnVanishes(w);
    KeptAtOnce(m, [Controlled(w, 2)], [Controlled(w, 0)], s);
    ControlledMeans(m, w, 2, s);
    ControlledMeans(m, w, 0, s);
  }

  /** A lawful interpretation is kept by all rewrites exactly when a controlled full turn changes nothing in it. */
  lemma KeptExactly<S(!new)>(m: Interpretation<S>)
    requires Lawful(m)
    ensures AllKept(m) <==> ControlledTurns(m)
  {
    if ControlledTurns(m) {
      forall c: Circuit, c': Circuit | Rewrites(c, c') ensures SameMeaning(m, c, c') {
        RewriteKeepsMeaning(m, c, c');
      }
    }
    if AllKept(m) {
      forall w: seq<nat>, s: S | |w| == 2 && NoDuplicates(w) ensures m.rot(ControlledX, w, 2.0, s) == s {
        TurnIsIdentity(m, w, s);
      }
    }
  }

  /** Counts the controlled turning; all other gates do nothing. */
  function Counting(): Interpretation<real> {
    Interpretation((a: Axis, w: seq<nat>, x: real, s: real) => if a == ControlledX then s + x else s, (g: Gate, s: real) => s)
  }

  lemma CountingIsLawful()
    ensures Lawful(Counting())
  {
    var m := Counting();
    forall a: Gate, b: Gate, s: real ensures Apply(m, b, Apply(m, a, s)) == Apply(m, a, Apply(m, b, s)) {
    }
  }

  /** In this lawful interpretation a controlled full turn means something, and the rewriter drops it. */
  lemma ControlledTurnIsLost(w: seq<nat>)
    requires |w| == 2 && NoDuplicates(w)
    ensures Lawful(Counting()) && !ControlledTurns(Counting())
    ensures Rewrites([Controlled(w, 2)], [Controlled(w, 0)]) && Rewrites([Controlled(w, 0)], [])
    ensures Meaning(Counting(), [Controlled(w, 2)], 0.0) == 2.0 && Meaning(Counting(), [], 0.0) == 0.0
  {
    FullTurnVanishes(w);
    CountingIsLawful();
    MeaningOfOne(Counting(), Controlled(w, 2), 0.0);
    AngleOfHalfTurns(2, 0);
    assert Counting().rot(ControlledX, w, 2.0, 0.0) == 2.0;
  }

  // ---------- termination ----------

  function Uncanonical(c: Circuit): (n: nat)
    ensures n <= |c|
  {
    if c == [] then 0 else (if Canonical(c[0]) then 0 else 1) + Uncanonical(c[1..])
  }

  lemma {:induction false} UncanonicalAt(c: Circuit, j: nat, g: Gate)
    requires j < |c| && !Canonical(c[j]) && Canonical(g)
    ensures Uncanonical(c[j := g]) == Uncanonical(c) - 1
  {
    if j == 0 {
      assert c[j := g][1..] == c[1..];
    } else {
      assert c[j := g][1..] == c[1..][j - 1 := g];
      UncanonicalAt(c[1..], j - 1, g);
    }
  }

  /** The lexicographic measure: fewer gates, or as many gates and fewer rotations out of canonical form. */
  ghost predicate Smaller(c': Circuit, c: Circuit) {
    |c'| < |c| || (|c'| == |c| && Uncanonical(c') < Uncanonical(c))
  }

  /** The rotations that the code never brings to rest: exponent 30 and an angle above zero and up to half a turn. */
  predicate Spinning(g: Gate) {
    g.Rot? && g.d == 30 && Normal(g.n, g.d) > 0
  }

  predicate AtRest(c: Circuit) {
    forall i :: 0 <= i < |c| ==> !Spinning(c[i])
  }

  lemma ReducedIsCanonical(g: Gate)
    requires ValidGate(g) && Reducible(g) && !Spinning(g)
    ensures Canonical(g.(n := Reduced(g.n, g.d)))
  {
    var t1 := ReducedExactly(g.n, g.d);
    var t2 := NormalIsCongruent(g.n, g.d);
    var t3 := ReducedExactly(Reduced(g.n, g.d), g.d);
    var t4 := NormalIsCongruent(Reduced(g.n, g.d), g.d);
  }

  lemma ReducedIsValid(c: Circuit, j: nat)
    requires Valid(c) && j < |c| && NormalizeIntRotation(c, j).Some?
    ensures Valid(NormalizeIntRotation(c, j).value)
  {
    assert ValidGate(c[j]);
    var t := ReducedExactly(c[j].n, c[j].d);
  }

  lemma NormalizedIsCanonical(c: Circuit, j: nat)
    requires Valid(c) && j < |c| && NormalizeIntRotation(c, j).Some? && !Spinning(c[j])
    ensures Smaller(NormalizeIntRotation(c, j).value, c)
  {
    assert ValidGate(c[j]);
    ReducedIsCanonical(c[j]);
    UncanonicalAt(c, j, c[j].(n := Reduced(c[j].n, c[j].d)));
  }

  lemma FoldedIsValid(c: Circuit, j: nat)
    requires Valid(c) && j < |c| && FoldIntRotationPair(c, j).Some?
    ensures Valid(FoldIntRotationPair(c, j).value) && |FoldIntRotationPair(c, j).value| == |c| - 1
  {
    var i := RotationBefore(c, j).value;
    assert ValidGate(c[i]) && ValidGate(c[j]);
    CombinedIsSum(c[i].n, c[i].d, c[j].n, c[j].d);
    var angle := CombineIntRotAngles(c[i].n, c[i].d, c[j].n, c[j].d).value;
    assert ValidGate(c[j].(n := angle.0, d := angle.1));
  }

  lemma CancelShrinks(c: Circuit, j: nat)
    requires Valid(c) && j < |c| && CancelHermitianPair(c, j).Some?
    ensures Valid(CancelHermitianPair(c, j).value) && |CancelHermitianPair(c, j).value| == |c| - 2
  {
  }

  lemma EliminateShrinks(c: Circuit, j: nat)
    requires Valid(c) && j < |c| && EliminateZeroIntRotation(c, j).Some?
    ensures Valid(EliminateZeroIntRotation(c, j).value) && |EliminateZeroIntRotation(c, j).value| == |c| - 1
  {
  }

  /** Every rewrite keeps circuits valid; and it lowers the measure, unless it normalises a rotation that never rests. */
  lemma RewriteShrinks(c: Circuit, c': Circuit)
    requires Rewrites(c, c')
    ensures Valid(c') && (AtRest(c) ==> Smaller(c', c))
  {
    var j :| 0 <= j < |c| && RewritesAt(c, c', j);
    if CancelHermitianPair(c, j) == Some(c') {
      CancelShrinks(c, j);
    } else if FoldIntRotationPair(c, j) == Some(c') {
      FoldedIsValid(c, j);
    } else if NormalizeIntRotation(c, j) == Some(c') {
      ReducedIsValid(c, j);
      if AtRest(c) {
        NormalizedIsCanonical(c, j);
      }
    } else {
      EliminateShrinks(c, j);
    }
  }

  function Triangle(n: nat): nat {
    if n == 0 then 0 else n + Triangle(n - 1)
  }

  lemma {:induction false} TriangleGrows(a: nat, b: nat)
    requires a < b
    ensures Triangle(a) + a < Triangle(b)
  {
    if a < b - 1 {
      TriangleGrows(a, b - 1);
    }
  }

  /** The number of rewrites that a circuit allows at most: 1 + 2 + ... + |c|, and one for each uncanonical rotation. */
  function Bound(c: Circuit): nat {
    Triangle(|c|) + Uncanonical(c)
  }

  lemma SmallerBound(c: Circuit, c': Circuit)
    requires Smaller(c', c)
    ensures Bound(c') < Bound(c)
  {
    if |c'| < |c| {
      TriangleGrows(|c'|, |c|);
    }
  }

  /** A run of the rewriter: each circuit is a rewrite of the one before. */
  ghost predicate Rewriting(cs: seq<Circuit>) {
    forall i :: 0 < i < |cs| ==> Rewrites(cs[i - 1], cs[i])
  }

  lemma {:induction false} RewritingIsValid(cs: seq<Circuit>, i: nat)
    requires i < |cs| && Valid(cs[0]) && Rewriting(cs)
    ensures Valid(cs[i])
  {
    if i > 0 {
      RewritingIsValid(cs, i - 1);
      RewriteShrinks(cs[i - 1], cs[i]);
    }
  }

  lemma RewritingTail(cs: seq<Circuit>)
    requires |cs| > 1 && Rewriting(cs)
    ensures Rewriting(cs[1..])
  {
    forall i | 0 < i < |cs[1..]| ensures Rewrites(cs[1..][i - 1], cs[1..][i]) {
      assert cs[1..][i - 1] == cs[i] && cs[1..][i] == cs[i + 1];
    }
  }

  ghost predicate NoneReducesControlled(cs: seq<Circuit>) {
    forall i :: 0 < i < |cs| ==> !ReducesControlled(cs[i - 1], cs[i])
  }

  /** On every run the last circuit means what the first did, provided that a controlled full turn changes nothing or
      that no controlled rotation is normalised. */
  lemma {:induction false} RewritingKeepsMeaning<S(!new)>(m: Interpretation<S>, cs: seq<Circuit>)
    requires Lawful(m) && |cs| > 0 && Valid(cs[0]) && Rewriting(cs)
    requires ControlledTurns(m) || NoneReducesControlled(cs)
    ensures Valid(cs[|cs| - 1]) && SameMeaning(m, cs[0], cs[|cs| - 1])
  {
    if |cs| > 1 {
      assert Rewrites(cs[0], cs[1]);
      assert !ControlledTurns(m) ==> !ReducesControlled(cs[0], cs[1]);
      RewriteKeepsMeaning(m, cs[0], cs[1]);
      RewriteShrinks(cs[0], cs[1]);
      RewritingTail(cs);
      assert forall i :: 0 < i < |cs[1..]| ==> cs[1..][i - 1] == cs[i] && cs[1..][i] == cs[i + 1];
      RewritingKeepsMeaning(m, cs[1..]);
    }
  }

  ghost predicate AllAtRest(cs: seq<Circuit>) {
    forall i :: 0 <= i < |cs| ==> AtRest(cs[i])
  }

  /** A run without rotations that never rest ends within the bound of its first circuit. */
  lemma {:induction false} RestingRunEnds(cs: seq<Circuit>)
    requires |cs| > 0 && Rewriting(cs) && AllAtRest(cs)
    ensures |cs| <= Bound(cs[0]) + 1
  {
    if |cs| > 1 {
      assert Rewrites(cs[0], cs[1]);
      assert AtRest(cs[0]);
      RewriteShrinks(cs[0], cs[1]);
      SmallerBound(cs[0], cs[1]);
      RewritingTail(cs);
      assert forall i :: 0 <= i < |cs[1..]| ==> cs[1..][i] == cs[i + 1];
      RestingRunEnds(cs[1..]);
    }
  }

  /** No rotation has exponent 30. */
  predicate NoThirty(c: Circuit) {
    forall i :: 0 <= i < |c| && c[i].Rot? ==> c[i].d != 30
  }

  lemma FoldedNoThirty(c: Circuit, i: nat, j: nat, g: Gate)
    requires i < j < |c| && NoThirty(c) && NoThirty([g])
    ensures NoThirty(c[..i] + c[i + 1..j] + [g] + c[j + 1..])
  {
  }

  lemma FoldKeepsNoThirty(c: Circuit, j: nat)
    requires Valid(c) && j < |c| && FoldIntRotationPair(c, j).Some? && NoThirty(c)
    ensures NoThirty(FoldIntRotationPair(c, j).value)
  {
    var i := RotationBefore(c, j).value;
    FoldedWires(c, j);
    CombinedIsSum(c[i].n, c[i].d, c[j].n, c[j].d);
    var angle := CombineIntRotAngles(c[i].n, c[i].d, c[j].n, c[j].d).value;
    assert forall k :: 0 <= k < |c| && c[k].Rot? ==> c[k].d != 30;
    assert c[i].d != 30 && c[j].d != 30;
    FoldedNoThirty(c, i, j, c[j].(n := angle.0, d := angle.1));
  }

  lemma RemovedNoThirty(c: Circuit, i: nat, j: nat)
    requires i < j < |c| && NoThirty(c)
    ensures NoThirty(RemovePair(c, i, j)) && NoThirty(c[..j] + c[j + 1..])
  {
  }

  lemma CancelKeepsNoThirty(c: Circuit, j: nat)
    requires j < |c| && CancelHermitianPair(c, j).Some? && NoThirty(c)
    ensures NoThirty(CancelHermitianPair(c, j).value)
  {
    RemovedNoThirty(c, HermitianPair(c, j).value, j);
  }

  lemma NormalizeKeepsNoThirty(c: Circuit, j: nat)
    requires j < |c| && NormalizeIntRotation(c, j).Some? && NoThirty(c)
    ensures NoThirty(NormalizeIntRotation(c, j).value)
  {
  }

  lemma EliminateKeepsNoThirty(c: Circuit, j: nat)
    requires j < |c| && EliminateZeroIntRotation(c, j).Some? && NoThirty(c)
    ensures NoThirty(EliminateZeroIntRotation(c, j).value)
  {
  }

  lemma NoThirtyKept(c: Circuit, c': Circuit)
    requires Rewrites(c, c') && NoThirty(c)
    ensures NoThirty(c')
  {
    var j :| 0 <= j < |c| && RewritesAt(c, c', j);
    if CancelHermitianPair(c, j) == Some(c') {
      CancelKeepsNoThirty(c, j);
    } else if FoldIntRotationPair(c, j) == Some(c') {
      FoldKeepsNoThirty(c, j);
    } else if NormalizeIntRotation(c, j) == Some(c') {
      NormalizeKeepsNoThirty(c, j);
    } else {
      EliminateKeepsNoThirty(c, j);
    }
  }

  lemma {:induction false} NoThirtyRun(cs: seq<Circuit>, i: nat)
    requires i < |cs| && Rewriting(cs) && NoThirty(cs[0])
    ensures NoThirty(cs[i])
  {
    if i > 0 {
      NoThirtyRun(cs, i - 1);
      NoThirtyKept(cs[i - 1], cs[i]);
    }
  }

  /** Every run from a circuit without exponent 30 ends within the bound of the circuit. */
  lemma RewritingEnds(cs: seq<Circuit>)
    requires |cs| > 0 && Rewriting(cs) && NoThirty(cs[0])
    ensures |cs| <= Bound(cs[0]) + 1
  {
    forall i | 0 <= i < |cs| ensures AtRest(cs[i]) {
      NoThirtyRun(cs, i);
    }
    RestingRunEnds(cs);
  }

  lemma SpinsByHalf(n: int, d: nat)
    requires IsI32(n) && d == 30 && Pow2(d) == 0x4000_0000 && Normal(n, d) > 0
    ensures IsI32(Reduced(n, d)) && Reduced(n, d) != n && Normal(Reduced(n, d), d) > 0 && Reduced(Reduced(n, d), d) == n
  {
    PeriodIs(d);
    ReducedByLeast(n);
    NormalByHalf(n, d);
    ReducedByLeast(Reduced(n, d));
    NormalByHalf(Reduced(n, d), d);
  }

  /** Normalising a rotation that never rests changes it, and it comes back after two rounds. */
  lemma SpinsRound(g: Gate)
    requires ValidGate(g) && Spinning(g)
    ensures var h := g.(n := Reduced(g.n, g.d));
            ValidGate(h) && h != g && Spinning(h) && Reduced(h.n, h.d) == g.n
  {
    Pow2Bound(g.d);
    Pow2Bound(g.d + 1);
    SpinsByHalf(g.n, g.d);
  }

  /** At exponent 30 these are the numerators from 1 to half a turn, and the same less a full turn. */
  lemma SpinningWhich(g: Gate)
    requires ValidGate(g) && g.Rot? && g.d == 30
    ensures Spinning(g) <==> 0 < g.n <= 0x4000_0000 || I32_MIN < g.n <= -0x4000_0000
  {
    Pow2Bound(g.d);
    Pow2Bound(g.d + 1);
    NormalByHalf(g.n, g.d);
  }

  lemma Prepended(c: Circuit, rest: seq<Circuit>)
    requires rest != [] && Rewrites(c, rest[0]) && Rewriting(rest)
    ensures Rewriting([c] + rest)
  {
    var cs := [c] + rest;
    forall i | 0 < i < |cs| ensures Rewrites(cs[i - 1], cs[i]) {
      assert cs[i] == rest[i - 1] && (i > 1 ==> cs[i - 1] == rest[i - 2]);
    }
  }

  /** From a circuit with such a rotation there are runs of any length. */
  lemma {:induction false} SpinsForever(c: Circuit, j: nat, k: nat) returns (cs: seq<Circuit>)
    requires Valid(c) && j < |c| && Spinning(c[j])
    ensures |cs| == k + 1 && cs[0] == c && Rewriting(cs)
    decreases k
  {
    if k == 0 {
      return [c];
    }
    assert ValidGate(c[j]);
    SpinsRound(c[j]);
    var next := NormalizeIntRotation(c, j).value;
    assert RewritesAt(c, next, j);
    ReducedIsValid(c, j);
    var rest := SpinsForever(next, j, k - 1);
    cs := [c] + rest;
    Prepended(c, rest);
  }

  ghost predicate IsRun(c: Circuit, cs: seq<Circuit>) {
    |cs| > 0 && cs[0] == c && Rewriting(cs)
  }

  ghost predicate RunsPast(c: Circuit, k: nat) {
    exists cs :: IsRun(c, cs) && |cs| > k
  }

  /** There are runs of any length from the circuit. */
  ghost predicate Endless(c: Circuit) {
    forall k: nat :: RunsPast(c, k)
  }

  ghost predicate ReachesSpinning(c: Circuit) {
    exists cs :: IsRun(c, cs) && !AtRest(cs[|cs| - 1])
  }

  lemma Joined(cs: seq<Circuit>, more: seq<Circuit>)
    requires |cs| > 0 && |more| > 0 && Rewriting(cs) && Rewriting(more) && cs[|cs| - 1] == more[0]
    ensures Rewriting(cs + more[1..])
  {
    var all := cs + more[1..];
    forall i | 0 < i < |all| ensures Rewrites(all[i - 1], all[i]) {
      if i >= |cs| {
        assert all[i] == more[i - |cs| + 1] && all[i - 1] == more[i - |cs|];
      }
    }
  }

  lemma LongRunSpins(c: Circuit, cs: seq<Circuit>)
    requires IsRun(c, cs) && |cs| > Bound(c) + 1
    ensures ReachesSpinning(c)
  {
    if i :| 0 <= i < |cs| && !AtRest(cs[i]) {
      var start := cs[..i + 1];
      assert Rewriting(start) by {
        forall k | 0 < k < |start| ensures Rewrites(start[k - 1], start[k]) {
          assert start[k - 1] == cs[k - 1] && start[k] == cs[k];
        }
      }
      assert IsRun(c, start) && start[|start| - 1] == cs[i];
    } else {
      RestingRunEnds(cs);
    }
  }

  lemma SpinningRunsPast(c: Circuit, cs: seq<Circuit>, k: nat)
    requires Valid(c) && IsRun(c, cs) && !AtRest(cs[|cs| - 1])
    ensures RunsPast(c, k)
  {
    var last := cs[|cs| - 1];
    RewritingIsValid(cs, |cs| - 1);
    var j :| 0 <= j < |last| && Spinning(last[j]);
    var more := SpinsForever(last, j, k);
    Joined(cs, more);
    assert IsRun(c, cs + more[1..]);
  }

  /** Rewriting can go on for ever exactly when it can reach a rotation with exponent 30 and an angle above zero and up to
      half a turn. */
  lemma EndlessExactly(c: Circuit)
    requires Valid(c)
    ensures Endless(c) <==> ReachesSpinning(c)
  {
    if Endless(c) {
      assert RunsPast(c, Bound(c) + 1);
      var cs :| IsRun(c, cs) && |cs| > Bound(c) + 1;
      LongRunSpins(c, cs);
    }
    if ReachesSpinning(c) {
      var cs :| IsRun(c, cs) && !AtRest(cs[|cs| - 1]);
      forall k: nat ensures RunsPast(c, k) {
        SpinningRunsPast(c, cs, k);
      }
    }
  }
}
