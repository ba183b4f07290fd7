/** The rewriting patterns on a circuit that they change in place. */
module PeepholeRewriter {
  import opened Wrappers
  import opened Peephole

  lemma Removed(c: Circuit, i: nat, j: nat, g: Gate)
    requires i < j < |c|
    ensures c[j := g][..i] + c[j := g][i + 1..] == c[..i] + c[i + 1..j] + [g] + c[j + 1..]
  {
  }

  /** No equal Hermitian gate adjoins, no rotation continues with an angle that adds up, and a rotation at `j` is not zero
      and is in the turn around zero, if its exponent is among those that are reduced. */
  ghost predicate NoneApplies(c: Circuit, j: nat)
    requires j < |c|
  {
    && (forall i: nat :: !Cancel(c, i, j))
    && (forall i: nat, n, d :: !Folds(c, i, j, n, d))
    && (c[j].Rot? ==> c[j].n != 0)
    && (c[j].Rot? && 0 <= c[j].d <= 30 ==> -Pow2(c[j].d) < c[j].n <= Pow2(c[j].d) && (c[j].d == 30 ==> c[j].n <= 0))
  }

  /** Reduces a numerator into the turn around zero, in wrapping 32-bit arithmetic. */
  method ReduceNumerator(n: int, period: int, half: int) returns (norm: int)
    requires period != 0
    ensures norm == ReducedBy(n, period, half)
  {
    var mod := Rem(Wrap(Rem(n, period) + period), period);
    norm := if mod > half then Wrap(mod - period) else mod;
  }

  class Rewriter {
    var gates: Circuit

    constructor (c: Circuit)
      ensures gates == c
    {
      gates := c;
    }

    /** The operation that defines the value on a wire, found by walking back. */
    method FindDefiningOp(w: nat, j: nat) returns (i: Option<nat>)
      requires j <= |gates|
      ensures i == DefiningOp(gates, w, j)
    {
      var k := j;
      while k > 0
        invariant 0 <= k <= j && DefiningOp(gates, w, j) == DefiningOp(gates, w, k)
      {
        k := k - 1;
        if w in gates[k].wires {
          return Some(k);
        }
      }
      return None;
    }

    /** Erases the gate at `j` and the earlier one whose results it takes, when the two are a Hermitian pair. */
    method MatchCancelHermitianPair(j: nat) returns (success: bool)
      requires j < |gates|
      modifies this
      ensures success == CancelHermitianPair(old(gates), j).Some?
      ensures gates == if success then CancelHermitianPair(old(gates), j).value else old(gates)
      ensures success <==> exists i: nat :: Cancel(old(gates), i, j)
      ensures forall i: nat :: Cancel(old(gates), i, j) ==> gates == old(gates)[..i] + old(gates)[i + 1..j] + old(gates)[j + 1..]
    {
      CancelExactly(gates, j);
      var op := gates[j];
      if !op.Hermitian? || op.wires == [] {
        return false;
      }
      var prev := FindDefiningOp(op.wires[0], j);
      if prev.None? || !gates[prev.value].Hermitian? || gates[prev.value].kind != op.kind || gates[prev.value].wires != op.wires {
        return false;
      }
      for k := 0 to |op.wires|
        invariant gates == old(gates)
        invariant forall l :: 0 <= l < k ==> DefiningOp(gates, op.wires[l], j) == prev
      {
        var defining := FindDefiningOp(op.wires[k], j);
        if defining != prev {
          return false;
        }
      }
      gates := gates[..j] + gates[j + 1..];
      gates := gates[..prev.value] + gates[prev.value + 1..];
      assert gates == RemovePair(old(gates), prev.value, j);
      return true;
    }

    /** The rotation that the gate at `j` continues. */
    method FindRotationBefore(j: nat) returns (prev: Option<nat>)
      requires j < |gates| && Valid(gates)
      ensures prev == RotationBefore(gates, j)
    {
      var rot := gates[j];
      assert ValidGate(rot);
      if !rot.Rot? {
        return None;
      }
      prev := FindDefiningOp(rot.wires[|rot.wires| - 1], j);
      if prev.None? || !gates[prev.value].Rot? || gates[prev.value].axis != rot.axis {
        return None;
      }
      if rot.axis == ControlledX {
        var control := FindDefiningOp(rot.wires[0], j);
        if control != prev || gates[prev.value].wires[0] != rot.wires[0] {
          return None;
        }
      }
    }

    /** Gives the rotation at `j` the combined angle and erases the one it continues, unless the angles do not combine. */
    method MatchFoldIntRotationPair(j: nat) returns (success: bool)
      requires j < |gates| && Valid(gates)
      modifies this
      ensures success == FoldIntRotationPair(old(gates), j).Some?
      ensures gates == if success then FoldIntRotationPair(old(gates), j).value else old(gates)
      ensures success <==> exists i: nat, n, d :: Folds(old(gates), i, j, n, d)
      ensures forall i: nat, n, d :: Folds(old(gates), i, j, n, d) ==>
                gates == old(gates)[..i] + old(gates)[i + 1..j] + [Rot(old(gates)[j].axis, old(gates)[j].wires, n, d)] + old(gates)[j + 1..]
    {
      FoldExactly(gates, j);
      var prev := FindRotationBefore(j);
      if prev.None? {
        return false;
      }
      FoldedWires(gates, j);
      var combined := CombineIntRotAngles(gates[prev.value].n, gates[prev.value].d, gates[j].n, gates[j].d);
      if combined.None? {
        return false;
      }
      var folded := gates[j].(n := combined.value.0, d := combined.value.1);
      Removed(gates, prev.value, j, folded);
      gates := gates[j := folded];
      gates := gates[..prev.value] + gates[prev.value + 1..];
      return true;
    }

    /** Reduces the numerator of a constant rotation by full turns, in 32-bit arithmetic. */
    method MatchNormalizeIntRotation(j: nat) returns (success: bool)
      requires j < |gates| && Valid(gates)
      modifies this
      ensures success == NormalizeIntRotation(old(gates), j).Some?
      ensures gates == if success then NormalizeIntRotation(old(gates), j).value else old(gates)
      ensures var g := old(gates)[j];
              success <==> g.Rot? && 0 <= g.d <= 30 && (!(-Pow2(g.d) < g.n <= Pow2(g.d)) || (g.d == 30 && g.n > 0))
      ensures success ==> exists norm :: Normalized(old(gates), j, gates, norm)
    {
      NormalizeExactly(gates, j);
      var rot := gates[j];
      if !Reducible(rot) {
        return false;
      }
      PeriodIs(rot.d);
      var norm := ReduceNumerator(rot.n, Wrap(Pow2(rot.d + 1)), Pow2(rot.d));
      if norm == rot.n {
        return false;
      }
      gates := gates[j := rot.(n := norm)];
      return true;
    }

    method MatchEliminateZeroIntRotation(j: nat) returns (success: bool)
      requires j < |gates|
      modifies this
      ensures success == EliminateZeroIntRotation(old(gates), j).Some?
      ensures gates == if success then EliminateZeroIntRotation(old(gates), j).value else old(gates)
      ensures success <==> old(gates)[j].Rot? && old(gates)[j].n == 0
      ensures success ==> gates == old(gates)[..j] + old(gates)[j + 1..]
    {
      if !gates[j].Rot? || gates[j].n != 0 {
        return false;
      }
      gates := gates[..j] + gates[j + 1..];
      return true;
    }

    /** Tries the patterns at one place; a success is one rewrite. */
    method MatchAny(j: nat) returns (success: bool)
      requires j < |gates| && Valid(gates)
      modifies this
      ensures success ==> Rewrites(old(gates), gates)
      ensures !success ==> gates == old(gates) && NoneApplies(gates, j)
    {
      success := MatchCancelHermitianPair(j);
      if !success {
        success := MatchFoldIntRotationPair(j);
      }
      if !success {
        success := MatchNormalizeIntRotation(j);
      }
      if !success {
        success := MatchEliminateZeroIntRotation(j);
      }
      assert success ==> RewritesAt(old(gates), gates, j);
    }
  }
}
